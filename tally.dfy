/** A vote tally: the Python `dict` from party name to vote count that the scraper
    builds per page and merges per municipality. Python dicts remember insertion
    order, and that order later decides the order of the party columns, so the
    tally keeps its keys in a sequence beside the map of counts. */
module Tallies {

  predicate Distinct<T(==)>(s: seq<T>) {
    forall i, j :: 0 <= i < j < |s| ==> s[i] != s[j]
  }

  datatype Tally = Tally(keys: seq<string>, counts: map<string, nat>) {

    /** Every key is listed once, in insertion order, and has a count. */
    ghost predicate Valid() {
      && Distinct(keys)
      && (forall k :: k in keys <==> k in counts)
    }

    /** `votes.get(party, 0)`. */
    function Get(party: string): nat {
      if party in counts then counts[party] else 0
    }

    /** `votes[party] = n`: a new party goes to the end, an existing one keeps its place. */
    function Put(party: string, n: nat): Tally {
      if party in counts then Tally(keys, counts[party := n])
      else Tally(keys + [party], counts[party := n])
    }
  }

  /** `{}`. */
  const Empty: Tally := Tally([], map[])

  /** Storing a count keeps the tally well formed, sets that party's count, leaves every
      other party's count alone and appends the party to the key order only when new. */
  lemma PutSets(t: Tally, party: string, n: nat)
    requires t.Valid()
    ensures t.Put(party, n).Valid()
    ensures party in t.Put(party, n).counts && t.Put(party, n).Get(party) == n
    ensures forall p :: p != party ==>
      (p in t.Put(party, n).counts <==> p in t.counts) && t.Put(party, n).Get(p) == t.Get(p)
    ensures party in t.counts ==> t.Put(party, n).keys == t.keys
    ensures party !in t.counts ==> t.Put(party, n).keys == t.keys + [party]
  {
  }

  /** The loop `for party, count in votes.items(): total[party] = total.get(party, 0) + count`
      after its first `n` iterations. */
  function AddCounts(total: Tally, votes: Tally, n: nat): Tally
    requires n <= |votes.keys|
  {
    if n == 0 then total
    else
      var t := AddCounts(total, votes, n - 1);
      var party := votes.keys[n - 1];
      t.Put(party, t.Get(party) + votes.Get(party))
  }

  /** The keys among `keys` that `total` does not have yet, in their order. */
  function Unseen(total: Tally, keys: seq<string>): seq<string> {
    if keys == [] then []
    else
      var k := keys[|keys| - 1];
      Unseen(total, keys[..|keys| - 1]) + (if k in total.counts then [] else [k])
  }

  /** After `n` iterations the tally is well formed, holds the parties of `total` and the
      first `n` keys of `votes`, and the parties of `total` keep their order. */
  lemma {:induction false} AddCountsKeys(total: Tally, votes: Tally, n: nat)
    requires total.Valid() && votes.Valid() && n <= |votes.keys|
    ensures AddCounts(total, votes, n).Valid()
    ensures total.keys <= AddCounts(total, votes, n).keys
    ensures forall p :: p in AddCounts(total, votes, n).counts <==> p in total.counts || p in votes.keys[..n]
  {
    if n > 0 {
      AddCountsKeys(total, votes, n - 1);
      var t := AddCounts(total, votes, n - 1);
      var party := votes.keys[n - 1];
      var r := t.Put(party, t.Get(party) + votes.Get(party));
      assert votes.keys[..n] == votes.keys[..n - 1] + [party];
      PutSets(t, party, t.Get(party) + votes.Get(party));
      if party !in t.counts {
        assert (t.keys + [party])[..|t.keys|] == t.keys;
      }
    }
  }

  /** After `n` iterations the key order is the parties of `total` in their order, then
      the new parties among the first `n` keys of `votes`, in the order of `votes`. */
  lemma {:induction false} AddCountsOrder(total: Tally, votes: Tally, n: nat)
    requires total.Valid() && votes.Valid() && n <= |votes.keys|
    ensures AddCounts(total, votes, n).keys == total.keys + Unseen(total, votes.keys[..n])
  {
    if n > 0 {
      AddCountsOrder(total, votes, n - 1);
      AddCountsKeys(total, votes, n - 1);
      var t := AddCounts(total, votes, n - 1);
      var party := votes.keys[n - 1];
      assert AddCounts(total, votes, n) == t.Put(party, t.Get(party) + votes.Get(party));
      var prefix := votes.keys[..n];
      var u := Unseen(total, votes.keys[..n - 1]);
      assert prefix[..n - 1] == votes.keys[..n - 1] && prefix[n - 1] == party;
      assert Unseen(total, prefix) == u + (if party in total.counts then [] else [party]);
      assert party !in votes.keys[..n - 1];
      assert party in t.counts <==> party in total.counts;
      PutSets(t, party, t.Get(party) + votes.Get(party));
      if party !in total.counts {
        assert total.keys + (u + [party]) == (total.keys + u) + [party];
      }
    }
  }

  /** After `n` iterations party `p` has gained its count in `votes` exactly when it is
      among the first `n` keys. */
  lemma {:induction false} AddCountsGet(total: Tally, votes: Tally, n: nat, p: string)
    requires total.Valid() && votes.Valid() && n <= |votes.keys|
    ensures AddCounts(total, votes, n).Get(p) ==
      total.Get(p) + (if p in votes.keys[..n] then votes.Get(p) else 0)
  {
    if n > 0 {
      AddCountsGet(total, votes, n - 1, p);
      AddCountsKeys(total, votes, n - 1);
      var t := AddCounts(total, votes, n - 1);
      var party := votes.keys[n - 1];
      assert AddCounts(total, votes, n) == t.Put(party, t.Get(party) + votes.Get(party));
      assert votes.keys[..n] == votes.keys[..n - 1] + [party];
      assert party !in votes.keys[..n - 1];
      PutSets(t, party, t.Get(party) + votes.Get(party));
    }
  }

  /** The whole loop: `votes` added into `total`. */
  function Merge(total: Tally, votes: Tally): Tally {
    AddCounts(total, votes, |votes.keys|)
  }

  /** `for party, count in votes.items(): total_votes[party] = total_votes.get(party, 0) + count`. */
  method MergeInto(total: Tally, votes: Tally) returns (r: Tally)
    requires votes.Valid()
    ensures r == Merge(total, votes)
  {
    r := total;
    var j := 0;
    while j < |votes.keys|
      invariant j <= |votes.keys|
      invariant r == AddCounts(total, votes, j)
    {
      var party := votes.keys[j];
      assert party in votes.counts;
      var count := votes.counts[party];
      r := r.Put(party, r.Get(party) + count);
      j := j + 1;
    }
  }

  /** Merging adds counts per party, an absent party counting as 0; the merged keys are
      the union of both key sets, and the parties already in `total` keep their order. */
  lemma MergeAddsCounts(total: Tally, votes: Tally)
    requires total.Valid() && votes.Valid()
    ensures Merge(total, votes).Valid()
    ensures total.keys <= Merge(total, votes).keys
    ensures forall p :: p in Merge(total, votes).counts <==> p in total.counts || p in votes.counts
    ensures forall p :: Merge(total, votes).Get(p) == total.Get(p) + votes.Get(p)
  {
    AddCountsKeys(total, votes, |votes.keys|);
    assert votes.keys[..|votes.keys|] == votes.keys;
    forall p ensures Merge(total, votes).Get(p) == total.Get(p) + votes.Get(p) {
      AddCountsGet(total, votes, |votes.keys|, p);
    }
    forall p ensures p in votes.keys[..|votes.keys|] <==> p in votes.counts {
    }
    forall p | p !in votes.counts ensures votes.Get(p) == 0 {
    }
  }

  /** The merged key order: the parties already in `total` in their order, then the new
      parties of `votes` in the order of `votes`. */
  lemma MergeKeyOrder(total: Tally, votes: Tally)
    requires total.Valid() && votes.Valid()
    ensures Merge(total, votes).keys == total.keys + Unseen(total, votes.keys)
  {
    AddCountsOrder(total, votes, |votes.keys|);
    assert votes.keys[..|votes.keys|] == votes.keys;
  }

  /** Two polling districts merged into an empty municipality total: {"Party A": 40}
      and then {"Party A": 30, "Party C": 10} give {"Party A": 70, "Party C": 10}. */
  lemma TwoDistrictExample(d1: Tally, d2: Tally)
    requires d1 == Tally(["Party A"], map["Party A" := 40])
    requires d2 == Tally(["Party A", "Party C"], map["Party A" := 30, "Party C" := 10])
    ensures d1.Valid() && d2.Valid()
    ensures var m := Merge(Merge(Empty, d1), d2);
      m.Get("Party A") == 70 && m.Get("Party C") == 10 && m.counts.Keys == {"Party A", "Party C"}
  {
    assert d1.Valid();
    assert d2.Valid();
    var m1 := Merge(Empty, d1);
    MergeAddsCounts(Empty, d1);
    assert m1.Get("Party A") == 40;
    assert m1.counts.Keys == {"Party A"};
    MergeAddsCounts(m1, d2);
    var m2 := Merge(m1, d2);
    assert m2.Get("Party A") == 70;
    assert m2.Get("Party C") == 10;
    assert forall p :: p in m2.counts <==> p == "Party A" || p == "Party C";
  }
}
