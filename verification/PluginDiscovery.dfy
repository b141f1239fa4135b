/** Deduplicating discovered manifests by name, "highest version wins", with the comparison the code uses. */
module PluginDiscovery {
  type Name = string

  /** A version is the list of its dot-separated numbers. */
  datatype Found = Found(name: Name, version: seq<int>)

  /** 1, 0 or -1 by the first difference; versions of different lengths are compared on the shorter length only. */
  function Compare(a: seq<int>, b: seq<int>): int {
    if a == [] || b == [] then 0
    else if a[0] > b[0] then 1
    else if a[0] < b[0] then -1
    else Compare(a[1..], b[1..])
  }

  /** At most the first three numbers are parsed. */
  function Parsed(v: seq<int>): seq<int> {
    if |v| <= 3 then v else v[..3]
  }

  /** _compare_versions. */
  function Versus(a: seq<int>, b: seq<int>): int {
    Compare(Parsed(a), Parsed(b))
  }

  /** What the dictionary holds under a name after scanning all. */
  function Kept(all: seq<Found>, n: Name): (k: int)
    ensures -1 <= k < |all| && (k >= 0 ==> all[k].name == n)
  {
    if all == [] then -1
    else
      var i := |all| - 1;
      var k := Kept(all[..i], n);
      if all[i].name == n && (k == -1 || Versus(all[i].version, all[k].version) > 0) then i else k
  }

  /** The dictionary's keys: a name takes its place when it is first seen and keeps it when a later manifest replaces the value. */
  function FirstSeen(all: seq<Found>): seq<Name> {
    if all == [] then []
    else
      var before, last := FirstSeen(all[..|all| - 1]), all[|all| - 1].name;
      if last in before then before else before + [last]
  }

  /** Every name discovered is a key once, and the keys stand in the order in which the names first appear. */
  lemma {:induction false} FirstSeenOrder(all: seq<Found>)
    ensures forall n :: n in FirstSeen(all) <==> Kept(all, n) >= 0
    ensures forall i, j :: 0 <= i < j < |FirstSeen(all)| ==>
      FirstSeen(all)[i] != FirstSeen(all)[j] && FirstIndex(all, FirstSeen(all)[i]) < FirstIndex(all, FirstSeen(all)[j])
    ensures forall n :: n in FirstSeen(all) <==> FirstIndex(all, n) < |all|
  {
    if all != [] {
      var init, last := all[..|all| - 1], all[|all| - 1];
      FirstSeenOrder(init);
      assert all == init + [last];
      forall n ensures FirstIndex(all, n) == if FirstIndex(init, n) < |init| then FirstIndex(init, n)
        else if last.name == n then |init| else |all|
      {
        FirstIndexAppend(init, last, n);
      }
    }
  }

  function FirstIndex(all: seq<Found>, n: Name): (i: nat)
    ensures i <= |all| && (i < |all| ==> all[i].name == n) && forall j :: 0 <= j < i ==> all[j].name != n
  {
    if all == [] || all[0].name == n then 0 else 1 + FirstIndex(all[1..], n)
  }

  lemma FirstIndexAppend(init: seq<Found>, last: Found, n: Name)
    ensures FirstIndex(init + [last], n) == if FirstIndex(init, n) < |init| then FirstIndex(init, n)
      else if last.name == n then |init| else |init| + 1
  {
    var all, i := init + [last], FirstIndex(init, n);
    var k := FirstIndex(all, n);
    assert i < |init| ==> all[i].name == n;
    assert k < |init| ==> init[k].name == n;
    assert all[|init|] == last;
  }

  ghost predicate HoldsFor(all: seq<Found>, final: map<Name, Found>, n: Name) {
    if Kept(all, n) >= 0 then n in final && final[n] == all[Kept(all, n)] else n !in final
  }

  /** What the dictionary holds: its keys in order, each with the manifest kept for it. */
  ghost predicate HoldsKept(all: seq<Found>, keys: seq<Name>, final: map<Name, Found>) {
    keys == FirstSeen(all) && forall n :: HoldsFor(all, final, n)
  }

  function Replaced(final: map<Name, Found>, m: Found): map<Name, Found> {
    if m.name !in final || Versus(m.version, final[m.name].version) > 0 then final[m.name := m] else final
  }

  lemma HoldsForNext(all: seq<Found>, i: nat, final: map<Name, Found>, n: Name)
    requires i < |all| && HoldsFor(all[..i], final, n)
    ensures HoldsFor(all[..i + 1], Replaced(final, all[i]), n)
  {
    assert all[..i + 1][..i] == all[..i];
  }

  /** Scanning one more manifest changes the dictionary as the loop's body does. */
  lemma HoldsKeptNext(all: seq<Found>, i: nat, keys: seq<Name>, final: map<Name, Found>)
    requires i < |all| && HoldsKept(all[..i], keys, final)
    ensures HoldsKept(all[..i + 1], if all[i].name in keys then keys else keys + [all[i].name], Replaced(final, all[i]))
  {
    assert all[..i + 1][..i] == all[..i];
    var scanned, next := all[..i + 1], Replaced(final, all[i]);
    forall n ensures HoldsFor(scanned, next, n) {
      HoldsForNext(all, i, final, n);
    }
  }

  /** The one pass that fills the dictionary, then its values in insertion order, the order the stable sort later starts from. */
  method Deduplicate(all: seq<Found>) returns (values: seq<Found>)
    ensures |values| == |FirstSeen(all)|
    ensures forall i :: 0 <= i < |values| ==> Kept(all, FirstSeen(all)[i]) >= 0 && values[i] == all[Kept(all, FirstSeen(all)[i])]
  {
    var keys: seq<Name>, final: map<Name, Found> := [], map[];
    for i := 0 to |all|
      invariant HoldsKept(all[..i], keys, final)
    {
      HoldsKeptNext(all, i, keys, final);
      var m := all[i];
      if m.name !in final || Versus(m.version, final[m.name].version) > 0 {
        final := final[m.name := m];
      }
      if m.name !in keys {
        keys := keys + [m.name];
      }
    }
    assert all[..|all|] == all;
    FirstSeenOrder(all);
    assert forall n :: n in keys ==> HoldsFor(all, final, n);
    values := ValuesOf(keys, final);
  }

  method ValuesOf(keys: seq<Name>, final: map<Name, Found>) returns (values: seq<Found>)
    requires forall n :: n in keys ==> n in final
    ensures |values| == |keys| && forall i :: 0 <= i < |keys| ==> values[i] == final[keys[i]]
  {
    values := [];
    for i := 0 to |keys|
      invariant |values| == i && forall j :: 0 <= j < i ==> values[j] == final[keys[j]]
    {
      values := values + [final[keys[i]]];
    }
  }

  /** The comparison is not an order (1.2 equals both 1.2.3 and 1.2.5), but "not above, then below" still composes. */
  lemma {:induction false} NotAboveThenBelow(c: seq<int>, a: seq<int>, b: seq<int>)
    requires Compare(c, a) <= 0 && Compare(b, a) > 0
    ensures Compare(c, b) <= 0
  {
    if c != [] && a[0] == b[0] == c[0] {
      NotAboveThenBelow(c[1..], a[1..], b[1..]);
    }
  }

  /** Every discovered name is kept once, and no manifest of that name, seen earlier or later, compares above the kept one. */
  lemma {:induction false} KeptIsUnbeaten(all: seq<Found>, n: Name)
    ensures Kept(all, n) >= 0 <==> exists m :: m in all && m.name == n
    ensures var k := Kept(all, n);
      forall m :: m in all && m.name == n ==> k >= 0 && Versus(m.version, all[k].version) <= 0
  {
    if all != [] {
      var i := |all| - 1;
      var init, last := all[..i], all[i];
      KeptIsUnbeaten(init, n);
      assert all == init + [last];
      var j, k := Kept(init, n), Kept(all, n);
      forall m | m in all && m.name == n ensures k >= 0 && Versus(m.version, all[k].version) <= 0 {
        if m in init && k != j {
          NotAboveThenBelow(Parsed(m.version), Parsed(init[j].version), Parsed(last.version));
        } else if k == i {
          CompareSelf(Parsed(last.version));
        }
      }
      if k >= 0 {
        assert all[k] in all;
      }
    }
  }

  lemma {:induction false} CompareSelf(a: seq<int>)
    ensures Compare(a, a) == 0
  {
    if a != [] {
      CompareSelf(a[1..]);
    }
  }

  // ----- when the highest version wins -----

  function Head(v: seq<int>): int {
    if v == [] then 0 else v[0]
  }

  function Tail(v: seq<int>): seq<int> {
    if v == [] then [] else v[1..]
  }

  /** The usual order of versions: a missing number is read as 0, so 1.2.5 is above 1.2 and 1.2.0 equals it. */
  predicate Higher(a: seq<int>, b: seq<int>)
    decreases |a| + |b|
  {
    if a == [] && b == [] then false
    else Head(a) > Head(b) || (Head(a) == Head(b) && Higher(Tail(a), Tail(b)))
  }

  /** Comparing beginnings p and q of a and b never contradicts the usual order; all it can miss is a difference further on. */
  lemma {:induction false} CompareAndHigher(a: seq<int>, b: seq<int>, p: seq<int>, q: seq<int>)
    requires p <= a && q <= b
    ensures Compare(p, q) > 0 ==> Higher(a, b)
    ensures Compare(p, q) < 0 ==> Higher(b, a) && !Higher(a, b)
    ensures p == a && q == b && |a| == |b| ==> (Compare(a, b) > 0 <==> Higher(a, b))
  {
    if p != [] && q != [] && p[0] == q[0] {
      CompareAndHigher(a[1..], b[1..], p[1..], q[1..]);
    }
  }

  /** The version kept for n is a highest one of those discovered for n. */
  ghost predicate KeepsHighest(all: seq<Found>, n: Name) {
    var k := Kept(all, n);
    k >= 0 ==> forall m :: m in all && m.name == n ==> !Higher(m.version, all[k].version)
  }

  ghost predicate Unbeaten(all: seq<Found>, m: Found) {
    m in all && forall x :: x in all && x.name == m.name ==> Versus(x.version, m.version) <= 0
  }

  /** What the manifests alone decide: every version of n that the comparison lets nothing beat is a highest one. */
  ghost predicate UnbeatenIsHighest(all: seq<Found>, n: Name) {
    forall m, x :: Unbeaten(all, m) && m.name == n && x in all && x.name == n ==> !Higher(x.version, m.version)
  }

  /** The same manifests, discovered in another order. */
  ghost predicate Reorders(other: seq<Found>, all: seq<Found>) {
    multiset(other) == multiset(all)
  }

  lemma SameMembers(other: seq<Found>, all: seq<Found>)
    requires Reorders(other, all)
    ensures forall m :: m in other <==> m in all
  {
    forall m ensures m in other <==> m in all {
      assert m in multiset(other) <==> m in multiset(all);
    }
  }

  /** Nothing replaces an unbeaten manifest that comes first. */
  lemma {:induction false} FirstUnbeatenStays(all: seq<Found>)
    requires all != [] && Unbeaten(all, all[0])
    ensures Kept(all, all[0].name) == 0
  {
    if |all| > 1 {
      var init := all[..|all| - 1];
      assert forall x :: x in init ==> x in all;
      assert all[|all| - 1] in all;
      FirstUnbeatenStays(init);
    } else {
      assert Kept(all[..0], all[0].name) == -1;
    }
  }

  lemma MovedToFront(all: seq<Found>, m: Found) returns (other: seq<Found>)
    requires m in all
    ensures other != [] && other[0] == m && Reorders(other, all)
  {
    var i :| 0 <= i < |all| && all[i] == m;
    other := [m] + (all[..i] + all[i + 1..]);
    assert all == all[..i] + ([m] + all[i + 1..]);
  }

  /**
    "Highest version wins" is false of the code in general: 1.2 seen first is kept over 1.2.5. Exactly when it
    holds: the highest version of n is kept in whatever order the manifests are discovered if and only if every
    version of n that no other compares above is a highest one.
   */
  lemma KeepsHighestExactly(all: seq<Found>, n: Name)
    ensures (forall other :: Reorders(other, all) ==> KeepsHighest(other, n)) <==> UnbeatenIsHighest(all, n)
  {
    if UnbeatenIsHighest(all, n) {
      forall other | Reorders(other, all) ensures KeepsHighest(other, n) {
        SameMembers(other, all);
        KeptIsUnbeaten(other, n);
        var k := Kept(other, n);
        if k >= 0 {
          assert other[k] in other;
          assert Unbeaten(all, other[k]);
        }
      }
    }
    if forall other :: Reorders(other, all) ==> KeepsHighest(other, n) {
      forall m, x | Unbeaten(all, m) && m.name == n && x in all && x.name == n ensures !Higher(x.version, m.version) {
        var other := MovedToFront(all, m);
        SameMembers(other, all);
        FirstUnbeatenStays(other);
        assert KeepsHighest(other, n);
      }
    }
  }

  /** Two versions tie where the comparison stops, although the second is higher. */
  ghost predicate HiddenBy(low: Found, high: Found) {
    Versus(high.version, low.version) == 0 && Higher(high.version, low.version)
  }

  /** Another version of the same plugin compares above this one. */
  ghost predicate Beaten(all: seq<Found>, m: Found) {
    exists x :: x in all && x.name == m.name && Versus(x.version, m.version) > 0
  }

  ghost predicate TiesAreBeaten(all: seq<Found>, n: Name) {
    forall low, high :: low in all && high in all && low.name == n && high.name == n && HiddenBy(low, high) ==> Beaten(all, low)
  }

  /** The same condition on pairs: whenever two versions tie although one is higher, a third version beats the lower one openly. */
  lemma HiddenMustBeBeaten(all: seq<Found>, n: Name)
    ensures UnbeatenIsHighest(all, n) <==> TiesAreBeaten(all, n)
  {
    if UnbeatenIsHighest(all, n) {
      forall low, high | low in all && high in all && low.name == n && high.name == n && HiddenBy(low, high)
        ensures Beaten(all, low)
      {
        assert !Unbeaten(all, low);
      }
    }
    if TiesAreBeaten(all, n) {
      forall m, x | Unbeaten(all, m) && m.name == n && x in all && x.name == n ensures !Higher(x.version, m.version) {
        CompareAndHigher(x.version, m.version, Parsed(x.version), Parsed(m.version));
        assert !Beaten(all, m) && !HiddenBy(m, x);
      }
    }
  }

  /** A condition to check at a glance: if all versions of n have the same number of parts, at most three, the highest one is kept, in every order. */
  lemma SameLengthKeepsHighest(all: seq<Found>, n: Name, parts: nat)
    requires parts <= 3
    requires forall m :: m in all && m.name == n ==> |m.version| == parts
    ensures forall other :: Reorders(other, all) ==> KeepsHighest(other, n)
  {
    forall m, x | Unbeaten(all, m) && m.name == n && x in all && x.name == n ensures !Higher(x.version, m.version) {
      CompareAndHigher(x.version, m.version, Parsed(x.version), Parsed(m.version));
    }
    KeepsHighestExactly(all, n);
  }

  /** The input that shows it: of 1.2 and 1.2.5, discovered in this order, the code keeps 1.2. */
  lemma ShorterVersionHidesHigher()
    ensures var all := [Found("p", [1, 2]), Found("p", [1, 2, 5])];
      Kept(all, "p") == 0 && Higher(all[1].version, all[0].version) && !KeepsHighest(all, "p")
  {
    var all := [Found("p", [1, 2]), Found("p", [1, 2, 5])];
    assert all[..1] == [all[0]] && all[..1][..0] == [];
    assert Compare([1, 2, 5], [1, 2]) == Compare([2, 5], [2]) == Compare([5], []) == 0;
    assert Higher([5], []) && Higher([2, 5], [2]) && Higher([1, 2, 5], [1, 2]);
    assert Kept(all[..1], "p") == 0 && all[1] in all;
  }
}
