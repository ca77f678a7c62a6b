/**
 The seed of the common reference string. The source walks a hash map, whose order
 is arbitrary, sorts the points, and hashes the roster and the sorted contributions.
 */
module CeremonySeed {
  import opened Ceremony

  ghost predicate Ascending(s: seq<int>) {
    forall i, j :: 0 <= i < j < |s| ==> s[i] < s[j]
  }

  ghost predicate Lists(s: seq<int>, keys: set<int>) {
    forall p :: p in s <==> p in keys
  }

  /** What goes into the hash: the roster, then each point with its contribution. */
  datatype Preimage = Preimage(roster: Roster, entries: seq<(int, int)>)

  ghost predicate PreimageOf(p: Preimage, seed: Seed) {
    && p.roster == seed.roster
    && (forall i :: 0 <= i < |p.entries| ==> p.entries[i].0 in seed.contributions && seed.contributions[p.entries[i].0] == p.entries[i].1)
    && (forall i, j :: 0 <= i < j < |p.entries| ==> p.entries[i].0 < p.entries[j].0)
    && (forall k :: k in seed.contributions ==> exists i :: 0 <= i < |p.entries| && p.entries[i].0 == k)
  }

  /** Inserts a point where it belongs. */
  method Insert(s: seq<int>, p: int) returns (t: seq<int>)
    requires Ascending(s) && p !in s
    ensures Ascending(t) && forall x :: x in t <==> x in s || x == p
  {
    var k := 0;
    while k < |s| && s[k] < p
      invariant 0 <= k <= |s| && forall i :: 0 <= i < k ==> s[i] < p
    {
      k := k + 1;
    }
    t := s[..k] + [p] + s[k..];
    assert forall x :: x in s <==> x in s[..k] || x in s[k..] by {
      assert s == s[..k] + s[k..];
    }
    InsertedAscends(s, k, p);
  }

  lemma {:induction false} InsertedAscends(s: seq<int>, k: nat, p: int)
    requires Ascending(s) && k <= |s| && (forall i :: 0 <= i < k ==> s[i] < p) && (k < |s| ==> s[k] > p)
    ensures Ascending(s[..k] + [p] + s[k..])
  {
    var t := s[..k] + [p] + s[k..];
    forall i, j | 0 <= i < j < |t|
      ensures t[i] < t[j]
    {
      assert t[i] == if i < k then s[i] else if i == k then p else s[i - 1];
      assert t[j] == if j < k then s[j] else if j == k then p else s[j - 1];
    }
  }

  /** Any element of a set, as a walk of a hash map would yield it. */
  method Pick<T>(keys: set<T>) returns (p: T)
    requires keys != {}
    ensures p in keys
  {
    p :| p in keys;
  }

  /** Whatever order the keys are walked in, they come out sorted. */
  method SortKeys(keys: set<int>) returns (points: seq<int>)
    ensures Ascending(points) && Lists(points, keys)
  {
    points := [];
    var left := keys;
    while left != {}
      invariant left <= keys && Ascending(points)
      invariant Lists(points, keys - left)
      decreases left
    {
      var next := Pick(left);
      points := Insert(points, next);
      left := left - {next};
    }
    assert keys - left == keys;
  }

  method SeedPreimage(r: Roster, contributions: map<int, int>) returns (p: Preimage)
    ensures PreimageOf(p, Seed(r, contributions))
  {
    var points := SortKeys(contributions.Keys);
    assert forall i :: 0 <= i < |points| ==> points[i] in points;
    var entries: seq<(int, int)> := [];
    for k := 0 to |points|
      invariant |entries| == k
      invariant forall i :: 0 <= i < k ==> entries[i] == (points[i], contributions[points[i]])
    {
      entries := entries + [(points[k], contributions[points[k]])];
    }
    p := Preimage(r, entries);
    forall k | k in contributions
      ensures exists i :: 0 <= i < |entries| && entries[i].0 == k
    {
      assert k in points;
      var i :| 0 <= i < |points| && points[i] == k;
      assert entries[i].0 == k;
    }
  }

  /** The least point of both lists is their first entry. */
  lemma {:induction false} SameHead(p: Preimage, p': Preimage, seed: Seed)
    requires PreimageOf(p, seed) && PreimageOf(p', seed)
    ensures p.entries == [] <==> p'.entries == []
    ensures p.entries != [] ==> p.entries[0] == p'.entries[0]
  {
    if p.entries != [] {
      var k := p.entries[0].0;
      assert k in seed.contributions;
      var i :| 0 <= i < |p'.entries| && p'.entries[i].0 == k;
    }
    if p'.entries != [] {
      var k := p'.entries[0].0;
      assert k in seed.contributions;
      var i :| 0 <= i < |p.entries| && p.entries[i].0 == k;
    }
  }

  lemma {:induction false} DropHead(p: Preimage, seed: Seed)
    requires PreimageOf(p, seed) && p.entries != []
    ensures PreimageOf(p.(entries := p.entries[1..]), seed.(contributions := seed.contributions - {p.entries[0].0}))
  {
    var k0, rest := p.entries[0].0, p.entries[1..];
    forall k | k in seed.contributions - {k0}
      ensures exists i :: 0 <= i < |rest| && rest[i].0 == k
    {
      var i :| 0 <= i < |p.entries| && p.entries[i].0 == k;
      assert i != 0 && rest[i - 1].0 == k;
    }
  }

  lemma {:induction false} SameEntries(s: seq<(int, int)>, s': seq<(int, int)>)
    requires s != [] && s' != [] && s[0] == s'[0] && s[1..] == s'[1..]
    ensures s == s'
  {
    assert s == [s[0]] + s[1..] && s' == [s'[0]] + s'[1..];
  }

  /** One contribution map has one preimage, so the seed does not depend on the order of arrival. */
  lemma {:induction false} PreimageIsUnique(p: Preimage, p': Preimage, seed: Seed)
    requires PreimageOf(p, seed) && PreimageOf(p', seed)
    ensures p == p'
    decreases |p.entries|
  {
    SameHead(p, p', seed);
    if p.entries != [] {
      var rest, rest' := p.(entries := p.entries[1..]), p'.(entries := p'.entries[1..]);
      DropHead(p, seed);
      DropHead(p', seed);
      PreimageIsUnique(rest, rest', seed.(contributions := seed.contributions - {p.entries[0].0}));
      SameEntries(p.entries, p'.entries);
    }
  }

  /** One preimage belongs to one roster and one contribution map: equal seeds mean equal ceremonies. */
  lemma {:induction false} PreimageDetermines(p: Preimage, seed: Seed, seed': Seed)
    requires PreimageOf(p, seed) && PreimageOf(p, seed')
    ensures seed == seed'
  {
    assert seed.contributions.Keys == seed'.contributions.Keys by {
      forall k | k in seed.contributions
        ensures k in seed'.contributions
      {
        var i :| 0 <= i < |p.entries| && p.entries[i].0 == k;
      }
      forall k | k in seed'.contributions
        ensures k in seed.contributions
      {
        var i :| 0 <= i < |p.entries| && p.entries[i].0 == k;
      }
    }
    forall k | k in seed.contributions
      ensures seed.contributions[k] == seed'.contributions[k]
    {
      var i :| 0 <= i < |p.entries| && p.entries[i].0 == k;
    }
  }

  // ----- the same contributions in any order

  /** An operator after hearing contributions one by one; refused ones change nothing. */
  function Hear(o: Operator, arrivals: seq<(int, int)>): Operator {
    if arrivals == [] then o
    else
      var before, (point, value) := Hear(o, arrivals[..|arrivals| - 1]), arrivals[|arrivals| - 1];
      Or(OperatorAcceptContribution(before, point, value), before)
  }

  /** Contributions that each operator makes once: no two of them disagree about a point. */
  ghost predicate Consistent(arrivals: seq<(int, int)>, given: map<int, int>) {
    forall i :: 0 <= i < |arrivals| ==> arrivals[i].0 in given && given[arrivals[i].0] == arrivals[i].1
  }

  /** What an operator has heard: its own contribution and every acceptable one that arrived. */
  lemma {:induction false} HeardExactly(m: Member, arrivals: seq<(int, int)>, given: map<int, int>)
    requires Consistent(arrivals, given) && m.point in given && given[m.point] == m.contribution
    ensures var o := Hear(NewOperator(m), arrivals);
            && o == NewOperator(m).(contributions := o.contributions)
            && (forall k :: k in o.contributions ==> k in given && o.contributions[k] == given[k])
            && (forall k :: k in o.contributions <==>
                  k == m.point || (Contains(m.roster, k) && k in given && given[k] != 0 && Arrived(arrivals, k)))
  {
    if arrivals != [] {
      var n := |arrivals| - 1;
      HeardExactly(m, arrivals[..n], given);
      assert Consistent(arrivals[..n], given);
      forall k
        ensures Arrived(arrivals, k) <==> Arrived(arrivals[..n], k) || arrivals[n].0 == k
      {
        ArrivedStep(arrivals, k);
      }
    }
  }

  ghost predicate Arrived(arrivals: seq<(int, int)>, k: int) {
    exists i :: 0 <= i < |arrivals| && arrivals[i].0 == k
  }

  lemma {:induction false} ArrivedStep(arrivals: seq<(int, int)>, k: int)
    requires arrivals != []
    ensures var n := |arrivals| - 1; Arrived(arrivals, k) <==> Arrived(arrivals[..n], k) || arrivals[n].0 == k
  {
    var n := |arrivals| - 1;
    if Arrived(arrivals, k) && arrivals[n].0 != k {
      var i :| 0 <= i < |arrivals| && arrivals[i].0 == k;
      assert arrivals[..n][i].0 == k;
    }
    if Arrived(arrivals[..n], k) {
      var i :| 0 <= i < n && arrivals[..n][i].0 == k;
      assert arrivals[i].0 == k;
    }
  }

  /** Two operators that heard the same points, in whatever order and however often, derive the same seed. */
  lemma {:induction false} SeedIgnoresOrder(m: Member, arrivals: seq<(int, int)>, m': Member, arrivals': seq<(int, int)>, given: map<int, int>)
    requires m.roster == m'.roster && Contains(m.roster, m.point) && Contains(m.roster, m'.point)
    requires Consistent(arrivals, given) && Consistent(arrivals', given)
    requires m.point in given && given[m.point] == m.contribution != 0 && m'.point in given && given[m'.point] == m'.contribution != 0
    requires forall k :: Arrived(arrivals, k) || k == m.point <==> Arrived(arrivals', k) || k == m'.point
    ensures Hear(NewOperator(m), arrivals).contributions == Hear(NewOperator(m'), arrivals').contributions
  {
    HeardExactly(m, arrivals, given);
    HeardExactly(m', arrivals', given);
    var c, c' := Hear(NewOperator(m), arrivals).contributions, Hear(NewOperator(m'), arrivals').contributions;
    forall k
      ensures k in c <==> k in c'
    {
      assert Arrived(arrivals, k) || k == m.point <==> Arrived(arrivals', k) || k == m'.point;
    }
    assert c.Keys == c'.Keys;
    assert forall k :: k in c ==> c[k] == c'[k];
  }
}
