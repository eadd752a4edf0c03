/** The in-memory content-addressed store of chunk hashes: a map from a
    SHA-256 hex string to its reference count, kept in insertion order as a
    JavaScript `Map` iterates. */
module HashStore {

  /** One answer of `checkHashes`; `known` is its `exists` field. */
  datatype HashCheck = HashCheck(hash: string, known: bool)

  /** One row of `getAll`. */
  datatype HashEntry = HashEntry(sha256: string, refCount: nat)

  /** `hashStore.get(h) || 0`. */
  function CountOf(counts: map<string, nat>, h: string): nat {
    if h in counts then counts[h] else 0
  }

  /** The counts after `addHashes(hs)`: one increment per element, left to right. */
  function AddAll(counts: map<string, nat>, hs: seq<string>): map<string, nat>
    decreases |hs|
  {
    if hs == [] then counts
    else
      var before := AddAll(counts, hs[..|hs| - 1]);
      var h := hs[|hs| - 1];
      before[h := CountOf(before, h) + 1]
  }

  /** The iteration order after `addHashes(hs)`: `Map.set` on a new key
      appends it, on a present key keeps its place. */
  function NewKeys(order: seq<string>, hs: seq<string>): seq<string>
    decreases |hs|
  {
    if hs == [] then order
    else
      var before := NewKeys(order, hs[..|hs| - 1]);
      var h := hs[|hs| - 1];
      if h in before then before else before + [h]
  }

  predicate Distinct(s: seq<string>) {
    forall i, j :: 0 <= i < j < |s| ==> s[i] != s[j]
  }

  /** `addHashes` raises the count of each hash by its number of occurrences
      in the list, creating absent hashes; every other count is unchanged. */
  lemma {:induction false} AddAllCount(counts: map<string, nat>, hs: seq<string>, h: string)
    ensures h in AddAll(counts, hs) <==> h in counts || h in hs
    ensures CountOf(AddAll(counts, hs), h) == CountOf(counts, h) + multiset(hs)[h]
    decreases |hs|
  {
    if hs != [] {
      var init := hs[..|hs| - 1];
      AddAllCount(counts, init, h);
      assert hs == init + [hs[|hs| - 1]];
    }
  }

  /** The new iteration order is the old one followed by the hashes not yet
      present, in first-occurrence order, each once. */
  lemma {:induction false} NewKeysShape(order: seq<string>, hs: seq<string>)
    requires Distinct(order)
    ensures Distinct(NewKeys(order, hs))
    ensures order <= NewKeys(order, hs)
    ensures forall h :: h in NewKeys(order, hs) <==> h in order || h in hs
    decreases |hs|
  {
    if hs != [] {
      var init := hs[..|hs| - 1];
      NewKeysShape(order, init);
      assert hs == init + [hs[|hs| - 1]];
    }
  }

  /** The iteration order lists each stored hash once; the stored hashes are
      exactly the hashes of the history, each counted once per occurrence. */
  ghost predicate StoreInv(order: seq<string>, counts: map<string, nat>, added: seq<string>) {
    && Distinct(order)
    && (forall h :: h in counts <==> h in order)
    && (forall h :: h in counts <==> h in added)
    && (forall h :: h in counts ==> counts[h] == multiset(added)[h])
  }

  /** One iteration of the `addHashes` loop keeps the store consistent with
      its history. */
  lemma AddOneKeepsInv(order: seq<string>, counts: map<string, nat>, added: seq<string>, h: string)
    requires StoreInv(order, counts, added)
    ensures StoreInv(if h in counts then order else order + [h],
                     counts[h := CountOf(counts, h) + 1], added + [h])
  {
    var order' := if h in counts then order else order + [h];
    var counts' := counts[h := CountOf(counts, h) + 1];
    var added' := added + [h];
    assert multiset(added') == multiset(added) + multiset{h};
    if h !in counts {
      assert multiset(added)[h] == 0;
    }
    assert Distinct(order');
    forall k
      ensures k in counts' <==> k in order'
      ensures k in counts' <==> k in added'
    {
    }
  }

  /** One more element of the list: the counts, the iteration order and the
      history each take one step. */
  lemma PrefixSnoc(counts: map<string, nat>, order: seq<string>, head: seq<string>, s: seq<string>, i: nat)
    requires i < |s|
    ensures var before := AddAll(counts, s[..i]);
      AddAll(counts, s[..i + 1]) == before[s[i] := CountOf(before, s[i]) + 1]
    ensures var before := NewKeys(order, s[..i]);
      NewKeys(order, s[..i + 1]) == if s[i] in before then before else before + [s[i]]
    ensures head + s[..i + 1] == (head + s[..i]) + [s[i]]
  {
    assert s[..i + 1][..i] == s[..i];
  }

  /** The in-memory store. `added` is the ghost history: every hash ever
      passed to `addHashes`, in order. */
  class Store {
    var order: seq<string>
    var counts: map<string, nat>
    ghost var added: seq<string>

    ghost predicate Valid()
      reads this
    {
      StoreInv(order, counts, added)
    }

    constructor ()
      ensures Valid() && order == [] && counts == map[] && added == []
    {
      order := [];
      counts := map[];
      added := [];
    }

    /** `checkHashes`: one answer per input, in input order, duplicates
        kept; a hash exists exactly when it was added before. */
    method CheckHashes(hashList: seq<string>) returns (r: seq<HashCheck>)
      requires Valid()
      ensures |r| == |hashList|
      ensures forall i :: 0 <= i < |r| ==> r[i].hash == hashList[i]
      ensures forall i :: 0 <= i < |r| ==> (r[i].known <==> hashList[i] in added)
    {
      var stored := counts;
      r := seq(|hashList|, i requires 0 <= i < |hashList| => HashCheck(hashList[i], hashList[i] in stored));
    }

    /** `addHashes`: the counts loop over the list, and the history grows by
        the list. */
    method AddHashes(hashList: seq<string>)
      requires Valid()
      modifies this
      ensures Valid()
      ensures added == old(added) + hashList
      ensures counts == AddAll(old(counts), hashList)
      ensures order == NewKeys(old(order), hashList)
    {
      for i := 0 to |hashList|
        invariant Valid()
        invariant added == old(added) + hashList[..i]
        invariant counts == AddAll(old(counts), hashList[..i])
        invariant order == NewKeys(old(order), hashList[..i])
      {
        var h := hashList[i];
        PrefixSnoc(old(counts), old(order), old(added), hashList, i);
        AddOneKeepsInv(order, counts, added, h);
        var count := CountOf(counts, h);
        if h !in counts {
          order := order + [h];
        }
        counts := counts[h := count + 1];
        added := added + [h];
      }
      assert hashList[..|hashList|] == hashList;
    }

    /** `getAll`: one row per stored hash, in insertion order, with the
        number of times it was added. */
    method GetAll() returns (r: seq<HashEntry>)
      requires Valid()
      ensures |r| == |order|
      ensures forall i :: 0 <= i < |r| ==> r[i].sha256 == order[i]
      ensures forall i :: 0 <= i < |r| ==> r[i].sha256 in counts && r[i].refCount == counts[r[i].sha256]
      ensures forall i :: 0 <= i < |r| ==> r[i].refCount == multiset(added)[r[i].sha256] >= 1
      ensures forall h :: h in counts <==> exists i :: 0 <= i < |r| && r[i].sha256 == h
      ensures forall i, j :: 0 <= i < j < |r| ==> r[i].sha256 != r[j].sha256
    {
      var keys, stored := order, counts;
      r := seq(|keys|, i requires 0 <= i < |keys| && keys[i] in stored => HashEntry(keys[i], stored[keys[i]]));
    }
  }

  /** Every stored count is at least one and counts never decrease: adding a
      list keeps the store valid and raises each hash by its occurrences. */
  lemma AddPreservesCounts(counts: map<string, nat>, hs: seq<string>, h: string)
    requires forall k :: k in counts ==> counts[k] >= 1
    ensures h in AddAll(counts, hs) ==> AddAll(counts, hs)[h] >= 1
    ensures CountOf(AddAll(counts, hs), h) >= CountOf(counts, h)
    ensures h !in hs ==> CountOf(AddAll(counts, hs), h) == CountOf(counts, h)
  {
    AddAllCount(counts, hs, h);
    if h in AddAll(counts, hs) && h !in counts {
      assert h in hs;
      assert h in multiset(hs);
    }
  }
}
