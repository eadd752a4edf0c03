/** The content-defined chunking boundary engine of the chunker worker: the
    configuration it normalises, the cut rule over the gear rolling hash, and
    the split of a byte stream into cut chunks plus a trailing chunk. */
module Cdc {
  import opened Bytes
  import opened Gear
  import Js

  datatype Config = Config(minChunk: nat, avgChunk: nat, maxChunk: nat)

  const DEFAULT_MIN_CHUNK: nat := 16 * 1024
  const DEFAULT_AVG_CHUNK: nat := 64 * 1024
  const DEFAULT_MAX_CHUNK: nat := 256 * 1024

  // ---------------------------------------------------------------------------
  // Configuration

  /** `Number.isFinite(v) && v > 0`. */
  predicate IsPositiveNumber(v: Js.Value) {
    v.Num? && v.x > 0.0
  }

  /** A requested size is usable as given: absent or invalid (so defaulted),
      or a number of at least one byte. */
  predicate AtLeastOneOrDefault(v: Js.Value) {
    !IsPositiveNumber(v) || v.x >= 1.0
  }

  /** `Number.isFinite(v) && v > 0 ? Math.floor(v) : d`. */
  function Requested(v: Js.Value, d: nat): (r: nat)
    ensures !IsPositiveNumber(v) ==> r == d
    ensures IsPositiveNumber(v) ==> r as real <= v.x < r as real + 1.0
  {
    if IsPositiveNumber(v) then v.x.Floor else d
  }

  /** The worker's configuration: each size is the floor of the requested
      positive number or its default; then a minimum above the average is
      lowered to a quarter of the average (at least 1) and a maximum below
      the average is raised to twice the average (at least average + 1). */
  function NormaliseConfig(minIn: Js.Value, avgIn: Js.Value, maxIn: Js.Value): (cfg: Config)
    ensures cfg.avgChunk == Requested(avgIn, DEFAULT_AVG_CHUNK)
    ensures !IsPositiveNumber(minIn) && !IsPositiveNumber(avgIn) && !IsPositiveNumber(maxIn)
      ==> cfg == Config(16384, 65536, 262144)
    ensures Requested(minIn, DEFAULT_MIN_CHUNK) <= cfg.avgChunk
      ==> cfg.minChunk == Requested(minIn, DEFAULT_MIN_CHUNK)
    ensures Requested(maxIn, DEFAULT_MAX_CHUNK) >= cfg.avgChunk
      ==> cfg.maxChunk == Requested(maxIn, DEFAULT_MAX_CHUNK)
    ensures Requested(minIn, DEFAULT_MIN_CHUNK) > cfg.avgChunk ==>
      && cfg.minChunk >= 1
      && (cfg.avgChunk >= 4 ==> 4 * cfg.minChunk <= cfg.avgChunk < 4 * cfg.minChunk + 4)
      && (cfg.avgChunk < 4 ==> cfg.minChunk == 1)
    ensures Requested(maxIn, DEFAULT_MAX_CHUNK) < cfg.avgChunk ==> cfg.maxChunk == 2 * cfg.avgChunk
    ensures cfg.minChunk <= Requested(minIn, DEFAULT_MIN_CHUNK)
    ensures cfg.maxChunk >= Requested(maxIn, DEFAULT_MAX_CHUNK)
    ensures cfg.avgChunk <= cfg.maxChunk
    ensures cfg.avgChunk >= 1 ==> cfg.minChunk <= cfg.avgChunk && cfg.maxChunk >= 1
    ensures cfg.minChunk >= 1 <==> Requested(minIn, DEFAULT_MIN_CHUNK) >= 1
    ensures AtLeastOneOrDefault(minIn) && AtLeastOneOrDefault(avgIn)
      ==> 1 <= cfg.minChunk <= cfg.avgChunk <= cfg.maxChunk
  {
    var minChunk := Requested(minIn, DEFAULT_MIN_CHUNK);
    var avgChunk := Requested(avgIn, DEFAULT_AVG_CHUNK);
    var maxChunk := Requested(maxIn, DEFAULT_MAX_CHUNK);
    var minChunk' := if minChunk > avgChunk then (if avgChunk / 4 >= 1 then avgChunk / 4 else 1) else minChunk;
    var maxChunk' := if maxChunk < avgChunk then (if avgChunk * 2 >= avgChunk + 1 then avgChunk * 2 else avgChunk + 1) else maxChunk;
    Config(minChunk', avgChunk, maxChunk')
  }

  // ---------------------------------------------------------------------------
  // Cut rule

  /** The gear hash of a chunk, started from 0 and updated byte by byte. */
  function RollingHash(bs: seq<Byte>): (h: nat)
    ensures h < TWO_POW_32
    decreases |bs|
  {
    if bs == [] then 0 else GearStep(RollingHash(bs[..|bs| - 1]), bs[|bs| - 1])
  }

  /** What `processFileCDC` fixes before its loop: the two size bounds and
      the 32-bit pattern of the mask derived from the average size. */
  datatype CutParams = CutParams(minChunk: nat, maxChunk: nat, mask: nat)

  function ParamsOf(cfg: Config): CutParams {
    CutParams(cfg.minChunk, cfg.maxChunk, ToUint32(Mask(MaskBits(cfg.avgChunk))))
  }

  /** The test made after a byte is appended: the chunk has reached the
      minimum and the hash has its mask bits clear, or it has reached the
      maximum. */
  predicate CutRule(len: nat, h: nat, p: CutParams) {
    (len >= p.minChunk && MaskTest(h, p.mask)) || len >= p.maxChunk
  }

  /** A boundary test on the current chunk, as the byte loop asks it after
      appending each byte. */
  type Fires = seq<Byte> -> bool

  /** The worker's boundary test: the cut rule on the chunk's length and its
      rolling hash. */
  function Boundary(p: CutParams): Fires {
    c => CutRule(|c|, RollingHash(c), p)
  }

  /** The rule fires on the first `n` bytes of `c`. */
  predicate CutsAt(c: seq<Byte>, n: nat, fires: Fires)
    requires n <= |c|
  {
    fires(c[..n])
  }

  /** No non-empty prefix of `t` makes the rule fire. */
  predicate Uncut(t: seq<Byte>, fires: Fires) {
    forall n :: 1 <= n <= |t| ==> !CutsAt(t, n, fires)
  }

  /** `c` ends at the first position where the rule fires. */
  predicate IsCut(c: seq<Byte>, fires: Fires) {
    |c| >= 1 && CutsAt(c, |c|, fires) && Uncut(c[..|c| - 1], fires)
  }

  /** `fires` asks the cut rule of `p` about the chunk and its rolling hash.
      The quantifier is instantiated only where the rule itself is asked. */
  ghost predicate FollowsRule(fires: Fires, p: CutParams) {
    forall c {:trigger CutRule(|c|, RollingHash(c), p)} :: fires(c) <==> CutRule(|c|, RollingHash(c), p)
  }

  lemma BoundaryFollowsRule(p: CutParams)
    ensures FollowsRule(Boundary(p), p)
  {
  }

  // ---------------------------------------------------------------------------
  // Splitting

  /** Chunks cut inside the byte loop, then the bytes left over. */
  datatype Split = Split(cuts: seq<seq<Byte>>, tail: seq<Byte>)

  /** The byte loop from a state holding the current chunk `buf`: each byte
      is appended, and when the rule fires the chunk is cut and the state
      reset. */
  function Continue(rest: seq<Byte>, buf: seq<Byte>, fires: Fires): Split
    decreases |rest|
  {
    if rest == [] then Split([], buf)
    else
      var grown := buf + [rest[0]];
      if fires(grown) then
        var r := Continue(rest[1..], [], fires);
        Split([grown] + r.cuts, r.tail)
      else
        Continue(rest[1..], grown, fires)
  }

  function SplitOf(data: seq<Byte>, fires: Fires): Split {
    Continue(data, [], fires)
  }

  /** Every chunk in emission order: the cut chunks, then the trailing chunk
      when it is not empty. */
  function Chunks(data: seq<Byte>, fires: Fires): seq<seq<Byte>> {
    var s := SplitOf(data, fires);
    s.cuts + (if s.tail == [] then [] else [s.tail])
  }

  function Flatten(cs: seq<seq<Byte>>): seq<Byte>
    decreases |cs|
  {
    if cs == [] then [] else cs[0] + Flatten(cs[1..])
  }

  lemma {:induction false} FlattenAppend(cs: seq<seq<Byte>>, ds: seq<seq<Byte>>)
    ensures Flatten(cs + ds) == Flatten(cs) + Flatten(ds)
    decreases |cs|
  {
    if cs == [] {
      assert cs + ds == ds;
    } else {
      assert (cs + ds)[0] == cs[0];
      assert (cs + ds)[1..] == cs[1..] + ds;
      FlattenAppend(cs[1..], ds);
      calc {
        Flatten(cs + ds);
        cs[0] + Flatten(cs[1..] + ds);
        cs[0] + (Flatten(cs[1..]) + Flatten(ds));
        (cs[0] + Flatten(cs[1..])) + Flatten(ds);
      }
    }
  }

  lemma FlattenSnoc(cs: seq<seq<Byte>>, c: seq<Byte>)
    ensures Flatten(cs + [c]) == Flatten(cs) + c
  {
    FlattenAppend(cs, [c]);
    assert Flatten([c]) == c + Flatten([]);
  }

  lemma FlattenCons(c: seq<Byte>, cs: seq<seq<Byte>>, t: seq<Byte>)
    ensures Flatten([c] + cs) + t == c + (Flatten(cs) + t)
  {
    assert ([c] + cs)[0] == c && ([c] + cs)[1..] == cs;
  }

  /** The hash of a grown chunk is one gear step from the hash of the chunk. */
  lemma RollingHashSnoc(buf: seq<Byte>, b: Byte)
    ensures RollingHash(buf + [b]) == GearStep(RollingHash(buf), b)
  {
    assert (buf + [b])[..|buf|] == buf;
  }

  /** The loop loses and invents no byte: the chunks it emits, followed by
      what is left, are the current chunk followed by the rest of the input. */
  lemma {:induction false} ContinueCovers(rest: seq<Byte>, buf: seq<Byte>, fires: Fires)
    ensures Flatten(Continue(rest, buf, fires).cuts) + Continue(rest, buf, fires).tail == buf + rest
    decreases |rest|
  {
    if rest == [] {
      assert Continue(rest, buf, fires) == Split([], buf);
      assert buf + rest == buf;
    } else {
      var grown := buf + [rest[0]];
      assert grown + rest[1..] == buf + rest;
      if fires(grown) {
        var r := Continue(rest[1..], [], fires);
        ContinueCovers(rest[1..], [], fires);
        assert Continue(rest, buf, fires) == Split([grown] + r.cuts, r.tail);
        assert [] + rest[1..] == rest[1..];
        FlattenCons(grown, r.cuts, r.tail);
      } else {
        ContinueCovers(rest[1..], grown, fires);
      }
    }
  }

  /** No chunk the loop cuts is empty. */
  lemma {:induction false} ContinueCutsNonEmpty(rest: seq<Byte>, buf: seq<Byte>, fires: Fires)
    ensures forall k :: 0 <= k < |Continue(rest, buf, fires).cuts| ==> Continue(rest, buf, fires).cuts[k] != []
    decreases |rest|
  {
    if rest != [] {
      var grown := buf + [rest[0]];
      if fires(grown) {
        ContinueCutsNonEmpty(rest[1..], [], fires);
      } else {
        ContinueCutsNonEmpty(rest[1..], grown, fires);
      }
    }
  }

  /** Concatenating the chunks in index order gives back the input, and no
      chunk is empty. */
  lemma Reassemble(data: seq<Byte>, fires: Fires)
    ensures Flatten(Chunks(data, fires)) == data
    ensures forall k :: 0 <= k < |Chunks(data, fires)| ==> Chunks(data, fires)[k] != []
  {
    var s := SplitOf(data, fires);
    var chunks := Chunks(data, fires);
    assert Flatten(chunks) == data by {
      ContinueCovers(data, [], fires);
      assert [] + data == data;
      if s.tail != [] {
        FlattenSnoc(s.cuts, s.tail);
      } else {
        assert chunks == s.cuts;
        assert Flatten(s.cuts) + [] == Flatten(s.cuts);
      }
    }
    assert forall k :: 0 <= k < |chunks| ==> chunks[k] != [] by {
      ContinueCutsNonEmpty(data, [], fires);
    }
  }

  /** Appending a byte on which the rule does not fire keeps a chunk uncut. */
  lemma GrowUncut(buf: seq<Byte>, b: Byte, fires: Fires)
    requires Uncut(buf, fires) && !CutsAt(buf + [b], |buf| + 1, fires)
    ensures Uncut(buf + [b], fires)
  {
    var grown := buf + [b];
    forall n | 1 <= n <= |grown|
      ensures !CutsAt(grown, n, fires)
    {
      if n <= |buf| {
        assert grown[..n] == buf[..n];
        assert !CutsAt(buf, n, fires);
      }
    }
  }

  /** Appending a byte on which the rule fires to an uncut chunk makes a
      first-firing chunk. */
  lemma GrowCut(buf: seq<Byte>, b: Byte, fires: Fires)
    requires Uncut(buf, fires) && CutsAt(buf + [b], |buf| + 1, fires)
    ensures IsCut(buf + [b], fires)
  {
    assert (buf + [b])[..|buf|] == buf;
  }

  /** Every chunk the loop cuts ends at the first position where the rule
      fires, and the trailing chunk has no position where it fires. */
  lemma {:induction false} ContinueShape(rest: seq<Byte>, buf: seq<Byte>, fires: Fires)
    requires Uncut(buf, fires)
    ensures forall k :: 0 <= k < |Continue(rest, buf, fires).cuts| ==> IsCut(Continue(rest, buf, fires).cuts[k], fires)
    ensures Uncut(Continue(rest, buf, fires).tail, fires)
    decreases |rest|
  {
    if rest != [] {
      var grown := buf + [rest[0]];
      assert grown[..|grown|] == grown;
      if fires(grown) {
        GrowCut(buf, rest[0], fires);
        ContinueShape(rest[1..], [], fires);
        var r := Continue(rest[1..], [], fires);
        assert Continue(rest, buf, fires).cuts == [grown] + r.cuts;
      } else {
        GrowUncut(buf, rest[0], fires);
        ContinueShape(rest[1..], grown, fires);
      }
    }
  }

  /** Every chunk of the split is a first-firing chunk, and the tail never fires. */
  lemma SplitShape(data: seq<Byte>, fires: Fires)
    ensures forall k :: 0 <= k < |SplitOf(data, fires).cuts| ==> IsCut(SplitOf(data, fires).cuts[k], fires)
    ensures Uncut(SplitOf(data, fires).tail, fires)
  {
    ContinueShape(data, [], fires);
  }

  /** A chunk of at least `maxChunk` bytes makes the rule fire. */
  lemma LongFires(t: seq<Byte>, p: CutParams)
    requires 1 <= p.maxChunk <= |t|
    ensures !Uncut(t, Boundary(p))
  {
    assert CutsAt(t, p.maxChunk, Boundary(p));
  }

  /** The size bounds: under a configuration with `minChunk <= maxChunk` and
      a positive maximum, every cut chunk has between `minChunk` and
      `maxChunk` bytes, and the trailing chunk fewer than `maxChunk`. */
  lemma ChunkBounds(data: seq<Byte>, p: CutParams)
    requires p.minChunk <= p.maxChunk && p.maxChunk >= 1
    ensures var s := SplitOf(data, Boundary(p));
      (forall k :: 0 <= k < |s.cuts| ==> p.minChunk <= |s.cuts[k]| <= p.maxChunk)
      && |s.tail| < p.maxChunk
  {
    var s := SplitOf(data, Boundary(p));
    SplitShape(data, Boundary(p));
    forall k | 0 <= k < |s.cuts|
      ensures p.minChunk <= |s.cuts[k]| <= p.maxChunk
    {
      var c := s.cuts[k];
      assert IsCut(c, Boundary(p));
      assert c[..|c|] == c;
      if |c| > p.maxChunk {
        LongFires(c[..|c| - 1], p);
        assert false;
      }
    }
    if |s.tail| >= p.maxChunk {
      LongFires(s.tail, p);
      assert false;
    }
  }

  /** A run of bytes on which the rule never fires stays in the current chunk
      to the end of the input. */
  lemma {:induction false} UncutContinue(rest: seq<Byte>, buf: seq<Byte>, fires: Fires)
    requires Uncut(buf + rest, fires)
    ensures Continue(rest, buf, fires) == Split([], buf + rest)
    decreases |rest|
  {
    if rest != [] {
      var grown := buf + [rest[0]];
      assert grown + rest[1..] == buf + rest;
      assert (buf + rest)[..|grown|] == grown;
      assert !CutsAt(buf + rest, |grown|, fires);
      UncutContinue(rest[1..], grown, fires);
    }
  }

  /** Once the first `k` bytes of a first-firing chunk `c` are buffered, the
      loop cuts exactly `c` and then starts afresh on what follows. */
  lemma {:induction false} CutContinue(c: seq<Byte>, rest: seq<Byte>, k: nat, fires: Fires)
    requires IsCut(c, fires) && k < |c|
    ensures var r := Continue(rest, [], fires);
      Continue(c[k..] + rest, c[..k], fires) == Split([c] + r.cuts, r.tail)
    decreases |c| - k
  {
    var input := c[k..] + rest;
    var grown := c[..k] + [input[0]];
    assert grown == c[..k + 1];
    if k + 1 < |c| {
      assert c[..|c| - 1][..k + 1] == grown;
      assert !CutsAt(c[..|c| - 1], k + 1, fires);
      assert input[1..] == c[k + 1..] + rest;
      CutContinue(c, rest, k + 1, fires);
    } else {
      assert grown == c;
      assert input[1..] == rest;
    }
  }

  /** A first-firing chunk at the head of the input is the first chunk cut. */
  lemma SplitCons(c: seq<Byte>, rest: seq<Byte>, fires: Fires)
    requires IsCut(c, fires)
    ensures SplitOf(c + rest, fires) == Split([c] + SplitOf(rest, fires).cuts, SplitOf(rest, fires).tail)
  {
    assert c[0..] + rest == c + rest && c[..0] == [];
    CutContinue(c, rest, 0, fires);
  }

  /** Every chunk in `cuts` is a first-firing chunk. */
  predicate AllCuts(cuts: seq<seq<Byte>>, fires: Fires) {
    forall k :: 0 <= k < |cuts| ==> IsCut(cuts[k], fires)
  }

  lemma {:induction false} SplitUniqueFrom(cuts: seq<seq<Byte>>, tail: seq<Byte>, fires: Fires)
    requires AllCuts(cuts, fires) && Uncut(tail, fires)
    ensures SplitOf(Flatten(cuts) + tail, fires) == Split(cuts, tail)
    decreases |cuts|
  {
    if cuts == [] {
      assert Flatten(cuts) + tail == tail;
      assert [] + tail == tail;
      UncutContinue(tail, [], fires);
    } else {
      var c := cuts[0];
      var rest := Flatten(cuts[1..]) + tail;
      assert Flatten(cuts) + tail == c + rest;
      assert IsCut(c, fires);
      assert AllCuts(cuts[1..], fires) by {
        forall k | 0 <= k < |cuts[1..]| ensures IsCut(cuts[1..][k], fires) {
          assert cuts[1..][k] == cuts[k + 1];
        }
      }
      SplitUniqueFrom(cuts[1..], tail, fires);
      SplitCons(c, rest, fires);
      assert [c] + cuts[1..] == cuts;
    }
  }

  /** The split is the only decomposition of the input into first-firing
      chunks followed by a tail on which the rule never fires. */
  lemma SplitUnique(data: seq<Byte>, cuts: seq<seq<Byte>>, tail: seq<Byte>, fires: Fires)
    requires Flatten(cuts) + tail == data
    requires forall k :: 0 <= k < |cuts| ==> IsCut(cuts[k], fires)
    requires Uncut(tail, fires)
    ensures SplitOf(data, fires) == Split(cuts, tail)
  {
    SplitUniqueFrom(cuts, tail, fires);
  }

  /** Appending bytes to the input does not move the boundaries already cut. */
  lemma {:induction false} ContinueAppend(rest: seq<Byte>, more: seq<Byte>, buf: seq<Byte>, fires: Fires)
    ensures Continue(rest, buf, fires).cuts <= Continue(rest + more, buf, fires).cuts
    decreases |rest|
  {
    if rest != [] {
      var grown := buf + [rest[0]];
      assert (rest + more)[0] == rest[0];
      assert (rest + more)[1..] == rest[1..] + more;
      if fires(grown) {
        ContinueAppend(rest[1..], more, [], fires);
      } else {
        ContinueAppend(rest[1..], more, grown, fires);
      }
    }
  }

  /** Boundaries are content-defined: the cut chunks of a prefix of the input
      are the first cut chunks of the whole input. */
  lemma AppendKeepsCuts(data: seq<Byte>, more: seq<Byte>, fires: Fires)
    ensures SplitOf(data, fires).cuts <= SplitOf(data + more, fires).cuts
  {
    ContinueAppend(data, more, [], fires);
  }
}
