/** The fee-rate ranking of a set of entries: one sorted list, whose last element is the next to
    be evicted. */
module Ranking {
  import opened Base
  import opened MapSums
  import opened FeeRate

  type Entries = map<Hash, Entry>

  /** Entries are stored under their own id and have a size. */
  ghost predicate Keyed(m: Entries) {
    forall k :: k in m ==> m[k].txid == k && m[k].size > 0
  }

  ghost predicate Member(e: Entry, m: Entries) {
    e.txid in m && m[e.txid] == e
  }

  /** Every other entry is ranked before `w`. */
  ghost predicate IsLowest(w: Entry, m: Entries) {
    Member(w, m) && forall k :: k in m && k != w.txid ==> HigherFeerate(m[k], w)
  }

  /** Extending the set by an entry: the lowest is the old lowest or the new entry. */
  lemma LowestExtends(m: Entries, w: Entry, e: Entry)
    requires Keyed(m) && IsLowest(w, m) && e.txid !in m && e.size > 0
    ensures IsLowest(if LowerForEviction(e, w) then e else w, m[e.txid := e])
  {
    hide HigherFeerate, LowerForEviction;
    HigherTotal(e, w);
    if LowerForEviction(e, w) {
      forall k | k in m
        ensures HigherFeerate(m[k], e)
      {
        if k != w.txid {
          HigherTransitive(m[k], w, e);
        }
      }
    }
  }

  /** The scan for the entry to evict. */
  method FindLowest(m: Entries) returns (worst: Option<Entry>)
    requires Keyed(m)
    ensures worst.None? <==> m == map[]
    ensures worst.Some? ==> IsLowest(worst.value, m)
  {
    hide HigherFeerate, LowerForEviction;
    worst := None;
    var todo := m.Keys;
    ghost var seen: Entries := map[];
    while todo != {}
      invariant Keyed(seen) && seen.Keys == m.Keys - todo && todo <= m.Keys
      invariant forall k :: k in seen ==> seen[k] == m[k]
      invariant worst.None? <==> seen == map[]
      invariant worst.Some? ==> IsLowest(worst.value, seen)
    {
      var k :| k in todo;
      if worst.Some? {
        LowestExtends(seen, worst.value, m[k]);
      }
      seen := seen[k := m[k]];
      if worst.None? || LowerForEviction(m[k], worst.value) {
        worst := Some(m[k]);
      }
      todo := todo - {k};
    }
    assert seen == m;
  }

  lemma {:induction false} LowestExists(m: Entries) returns (w: Entry)
    requires Keyed(m) && m != map[]
    ensures IsLowest(w, m)
    decreases |m|
  {
    hide HigherFeerate, LowerForEviction;
    var k := Pick(m);
    var rest := m - {k};
    if rest == map[] {
      w := m[k];
      assert m == map[k := w];
    } else {
      var v := LowestExists(rest);
      LowestExtends(rest, v, m[k]);
      assert rest[k := m[k]] == m;
      w := if LowerForEviction(m[k], v) then m[k] else v;
    }
  }

  ghost function Lowest(m: Entries): (w: Entry)
    requires Keyed(m) && m != map[]
    ensures IsLowest(w, m)
  {
    assert exists w :: IsLowest(w, m) by {
      var w := LowestExists(m);
    }
    var w :| IsLowest(w, m);
    w
  }

  lemma LowestUnique(m: Entries, v: Entry, w: Entry)
    requires IsLowest(v, m) && IsLowest(w, m)
    ensures v == w
  {
    hide HigherFeerate;
    HigherTotal(v, w);
  }

  /** All entries, highest rate first. */
  ghost function Ranked(m: Entries): (r: seq<Entry>)
    requires Keyed(m)
    ensures |r| == |m|
    decreases |m|
  {
    if m == map[] then [] else
      var w := Lowest(m);
      Ranked(m - {w.txid}) + [w]
  }

  lemma RankedStep(m: Entries, w: Entry)
    requires Keyed(m) && IsLowest(w, m)
    ensures Ranked(m) == Ranked(m - {w.txid}) + [w] && |m - {w.txid}| == |m| - 1
  {
    hide HigherFeerate;
    LowestUnique(m, w, Lowest(m));
    assert m.Keys == (m - {w.txid}).Keys + {w.txid};
  }

  lemma EmptyRanking()
    ensures Ranked(map[]) == []
  {
  }

  /** Sorting by repeated selection; `RankedUnique` says any correct sort gives the same list. */
  method RankEntries(m: Entries) returns (out: seq<Entry>)
    requires Keyed(m)
    ensures out == Ranked(m)
  {
    hide HigherFeerate, Ranked;
    EmptyRanking();
    out := [];
    var rest := m;
    while rest != map[]
      invariant Keyed(rest) && Ranked(m) == Ranked(rest) + out
      decreases |rest|
    {
      var worst := FindLowest(rest);
      RankedStep(rest, worst.value);
      var next := rest - {worst.value.txid};
      assert Ranked(rest) + out == Ranked(next) + ([worst.value] + out);
      out := [worst.value] + out;
      rest := next;
    }
  }

  ghost predicate SortedByRate(s: seq<Entry>) {
    forall i, j :: 0 <= i < j < |s| ==> HigherFeerate(s[i], s[j])
  }

  lemma {:induction false} RankedMembers(m: Entries, e: Entry)
    requires Keyed(m)
    ensures e in Ranked(m) <==> Member(e, m)
    decreases |m|
  {
    hide HigherFeerate;
    if m != map[] {
      RankedMembers(m - {Lowest(m).txid}, e);
    }
  }

  lemma {:induction false} RankedSorted(m: Entries)
    requires Keyed(m)
    ensures SortedByRate(Ranked(m))
    decreases |m|
  {
    hide HigherFeerate;
    if m != map[] {
      var w := Lowest(m);
      var rest := m - {w.txid};
      RankedSorted(rest);
      forall i | 0 <= i < |Ranked(rest)|
        ensures HigherFeerate(Ranked(rest)[i], w)
      {
        RankedMembers(rest, Ranked(rest)[i]);
      }
    }
  }

  /** `s` holds exactly the entries of `m`. */
  ghost predicate Lists(s: seq<Entry>, m: Entries) {
    forall e :: e in s <==> Member(e, m)
  }

  lemma FirstIsMember(m: Entries, s: seq<Entry>)
    requires Lists(s, m)
    ensures s == [] || Member(s[0], m)
  {
    assert s == [] || s[0] in s;
  }

  lemma LastIsLowest(m: Entries, s: seq<Entry>)
    requires Keyed(m) && m != map[] && SortedByRate(s) && Lists(s, m)
    ensures s != [] && IsLowest(s[|s| - 1], m)
  {
    hide HigherFeerate;
    assert Member(Lowest(m), m);
    var n := |s| - 1;
    assert s[n] in s;
    forall k | k in m && k != s[n].txid
      ensures HigherFeerate(m[k], s[n])
    {
      assert Member(m[k], m);
      var i :| 0 <= i < |s| && s[i] == m[k];
    }
  }

  lemma InitLists(m: Entries, s: seq<Entry>)
    requires Keyed(m) && s != [] && SortedByRate(s) && Lists(s, m)
    ensures Lists(s[..|s| - 1], m - {s[|s| - 1].txid})
  {
    hide HigherFeerate;
    var n := |s| - 1;
    assert s == s[..n] + [s[n]];
    HigherTotal(s[n], s[n]);
    forall e
      ensures e in s[..n] <==> Member(e, m - {s[n].txid})
    {
      assert e in s <==> Member(e, m);
      assert s[n] in s && Member(s[n], m);
    }
  }

  /** The ranking is the only sorted list of exactly these entries. */
  lemma {:induction false} RankedUnique(m: Entries, s: seq<Entry>)
    requires Keyed(m) && SortedByRate(s) && Lists(s, m)
    ensures s == Ranked(m)
    decreases |m|
  {
    hide HigherFeerate;
    FirstIsMember(m, s);
    if m != map[] {
      hide IsLowest;
      var n := |s| - 1;
      LastIsLowest(m, s);
      LowestUnique(m, s[n], Lowest(m));
      LowestIsMember(m);
      InitLists(m, s);
      hide Lists;
      RankedUnique(m - {s[n].txid}, s[..n]);
      assert s == s[..n] + [s[n]];
    }
  }

  // ----- sizes

  function EntrySize(e: Entry): nat {
    e.size
  }

  function SizeOf(s: seq<Entry>): nat {
    if s == [] then 0 else SizeOf(s[..|s| - 1]) + s[|s| - 1].size
  }

  lemma {:induction false} SizeOfRanked(m: Entries)
    requires Keyed(m)
    ensures SizeOf(Ranked(m)) == Sum(m, EntrySize)
    decreases |m|
  {
    hide HigherFeerate, IsLowest;
    if m != map[] {
      var w := Lowest(m);
      assert Member(w, m) by { LowestIsMember(m); }
      var rest := m - {w.txid};
      SizeOfRanked(rest);
      SumRemove(m, w.txid, EntrySize);
      assert Ranked(m)[..|rest|] == Ranked(rest);
    }
  }

  lemma LowestIsMember(m: Entries)
    requires Keyed(m) && m != map[]
    ensures Member(Lowest(m), m)
  {
  }
}
