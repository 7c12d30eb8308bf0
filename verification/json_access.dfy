/**
 Looking up members by name, and comparing items
 (FederatedLearningServer/src/cJSON.c:128-150, 1880-1920, 2986-3110).
 */
module JsonAccess {
  import opened Bytes
  import opened JsonText
  import opened JsonGrammar

  // ----- names

  function Lower(b: byte): byte {
    if 65 <= b <= 90 then b + 32 else b
  }

  /** The part of a name that a comparison looks at. */
  function Folded(name: bytes, caseSensitive: bool): (t: bytes)
    ensures |t| == |name|
  {
    if caseSensitive then name else seq(|name|, i requires 0 <= i < |name| => Lower(name[i]))
  }

  predicate SameName(a: bytes, b: bytes, caseSensitive: bool) {
    Folded(a, caseSensitive) == Folded(b, caseSensitive)
  }

  /** Two bytes that are equal or the two cases of one letter. */
  predicate SameLetter(a: byte, b: byte) {
    a == b || (65 <= a <= 90 && b == a + 32) || (65 <= b <= 90 && a == b + 32)
  }

  lemma LowerAgrees(a: byte, b: byte)
    ensures Lower(a) == Lower(b) <==> SameLetter(a, b)
  {
  }

  /** Names agree if they are equal, or equal but for the cases of letters. */
  lemma SameNameIff(a: bytes, b: bytes)
    ensures SameName(a, b, true) <==> a == b
    ensures SameName(a, b, false) <==> |a| == |b| && forall i :: 0 <= i < |a| ==> SameLetter(a[i], b[i])
  {
    var (x, y) := (Folded(a, false), Folded(b, false));
    forall i | 0 <= i < |a| && |a| == |b| ensures x[i] == y[i] <==> SameLetter(a[i], b[i]) {
      LowerAgrees(a[i], b[i]);
    }
    if x == y {
      assert |a| == |b| && forall i :: 0 <= i < |a| ==> x[i] == y[i];
    }
  }

  /** `get_object_item` on the members: the first one with this name. */
  function Lookup(members: seq<Member>, name: bytes, cs: bool): (found: Option<Json>)
    ensures found.Some? ==> Depth(found.value) <= DepthOfMembers(members)
  {
    if members == [] then None
    else if SameName(name, members[0].key, cs) then Some(members[0].value)
    else Lookup(members[1..], name, cs)
  }

  /** `cJSON_GetObjectItem`; items that are no objects have no named members. */
  function GetObjectItem(j: Json, name: bytes): Option<Json> {
    if j.Obj? then Lookup(j.members, name, false) else None
  }

  lemma {:induction false} FoundAt(ms: seq<Member>, k: nat, name: bytes, cs: bool)
    requires k < |ms| && SameName(name, ms[k].key, cs)
    requires forall i :: 0 <= i < k ==> !SameName(name, ms[i].key, cs)
    ensures Lookup(ms, name, cs) == Some(ms[k].value)
    decreases k
  {
    if k > 0 {
      FoundAt(ms[1..], k - 1, name, cs);
    }
  }

  lemma {:induction false} FoundNowhere(ms: seq<Member>, name: bytes, cs: bool)
    requires forall i :: 0 <= i < |ms| ==> !SameName(name, ms[i].key, cs)
    ensures Lookup(ms, name, cs) == None
  {
    if ms != [] {
      FoundNowhere(ms[1..], name, cs);
    }
  }

  /** A search finds the first member of the name, and nothing if there is none. */
  lemma {:induction false} LookupFindsFirst(ms: seq<Member>, name: bytes, cs: bool, v: Json)
    ensures Lookup(ms, name, cs) == Some(v)
            <==> exists k :: 0 <= k < |ms| && SameName(name, ms[k].key, cs) && ms[k].value == v
                             && forall i :: 0 <= i < k ==> !SameName(name, ms[i].key, cs)
  {
    hide SameName, Lookup;
    if forall i :: 0 <= i < |ms| ==> !SameName(name, ms[i].key, cs) {
      FoundNowhere(ms, name, cs);
    } else {
      var j :| 0 <= j < |ms| && SameName(name, ms[j].key, cs);
      var k := FirstOf(ms, name, cs, j);
      FoundAt(ms, k, name, cs);
    }
  }

  lemma {:induction false} FirstOf(ms: seq<Member>, name: bytes, cs: bool, j: nat) returns (k: nat)
    requires j < |ms| && SameName(name, ms[j].key, cs)
    ensures k <= j && SameName(name, ms[k].key, cs) && forall i :: 0 <= i < k ==> !SameName(name, ms[i].key, cs)
    decreases j
  {
    if i :| 0 <= i < j && SameName(name, ms[i].key, cs) {
      k := FirstOf(ms, name, cs, i);
    } else {
      k := j;
    }
  }

  /** The search loop. */
  method Find(members: seq<Member>, name: bytes, cs: bool) returns (found: Option<Json>)
    ensures found == Lookup(members, name, cs)
  {
    var i := 0;
    while i < |members| && !SameName(name, members[i].key, cs)
      invariant 0 <= i <= |members|
      invariant Lookup(members, name, cs) == Lookup(members[i..], name, cs)
    {
      assert members[i..][1..] == members[i + 1..];
      i := i + 1;
    }
    found := if i < |members| then Some(members[i].value) else None;
  }

  // ----- cJSON_Compare

  lemma {:induction false} ItemDepth(items: seq<Json>, i: nat)
    requires i < |items|
    ensures Depth(items[i]) <= DepthOfItems(items)
    decreases i
  {
    if i > 0 {
      ItemDepth(items[1..], i - 1);
    }
  }

  lemma {:induction false} MemberDepth(members: seq<Member>, i: nat)
    requires i < |members|
    ensures Depth(members[i].value) <= DepthOfMembers(members)
    decreases i
  {
    if i > 0 {
      MemberDepth(members[1..], i - 1);
    }
  }

  /** Comparison of two items that are not one and the same. Each member of one object must
      have a member of its name in the other that compares equal, and the other way round. */
  predicate Compare(a: Json, b: Json, cs: bool)
    decreases Depth(a) + Depth(b)
  {
    if a.Arr? && b.Arr? then
      && |a.items| == |b.items|
      && forall i :: 0 <= i < |a.items| ==>
           (ItemDepth(a.items, i); ItemDepth(b.items, i); Compare(a.items[i], b.items[i], cs))
    else if a.Obj? && b.Obj? then
      && (forall i :: 0 <= i < |a.members| ==>
            var other := Lookup(b.members, a.members[i].key, cs);
            other.Some? && (MemberDepth(a.members, i); Compare(a.members[i].value, other.value, cs)))
      && (forall i :: 0 <= i < |b.members| ==>
            var other := Lookup(a.members, b.members[i].key, cs);
            other.Some? && (MemberDepth(b.members, i); Compare(b.members[i].value, other.value, cs)))
    else a == b
  }

  /** One half of the comparison of objects. */
  predicate Covered(ms: seq<Member>, ns: seq<Member>, cs: bool) {
    forall i :: 0 <= i < |ms| ==> MemberMatches(ms[i], ns, cs)
  }

  predicate MemberMatches(m: Member, ns: seq<Member>, cs: bool) {
    var other := Lookup(ns, m.key, cs);
    other.Some? && Compare(m.value, other.value, cs)
  }

  lemma CompareObjects(ms: seq<Member>, ns: seq<Member>, cs: bool)
    ensures Compare(Obj(ms), Obj(ns), cs) <==> Covered(ms, ns, cs) && Covered(ns, ms, cs)
  {
    forall i | 0 <= i < |ms| ensures Depth(ms[i].value) <= DepthOfMembers(ms) {
      MemberDepth(ms, i);
    }
    forall i | 0 <= i < |ns| ensures Depth(ns[i].value) <= DepthOfMembers(ns) {
      MemberDepth(ns, i);
    }
  }

  method CompareArrays(xs: seq<Json>, ys: seq<Json>, cs: bool) returns (equal: bool)
    ensures equal == Compare(Arr(xs), Arr(ys), cs)
    decreases DepthOfItems(xs) + DepthOfItems(ys), 1
  {
    var i := 0;
    while i < |xs| && i < |ys|
      invariant 0 <= i <= |xs| && i <= |ys|
      invariant forall k :: 0 <= k < i ==> Compare(xs[k], ys[k], cs)
    {
      ItemDepth(xs, i);
      ItemDepth(ys, i);
      var same := CompareItems(xs[i], ys[i], cs);
      if !same {
        return false;
      }
      i := i + 1;
    }
    return i == |xs| && i == |ys|;
  }

  /** One of the two loops over the members of an object. */
  method CompareMembers(ms: seq<Member>, ns: seq<Member>, cs: bool) returns (covered: bool)
    ensures covered == Covered(ms, ns, cs)
    decreases DepthOfMembers(ms) + DepthOfMembers(ns), 1
  {
    var i := 0;
    while i < |ms|
      invariant 0 <= i <= |ms|
      invariant forall k :: 0 <= k < i ==> MemberMatches(ms[k], ns, cs)
    {
      MemberDepth(ms, i);
      var other := Find(ns, ms[i].key, cs);
      if other == None {
        assert !MemberMatches(ms[i], ns, cs);
        return false;
      }
      var same := CompareItems(ms[i].value, other.value, cs);
      if !same {
        assert !MemberMatches(ms[i], ns, cs);
        return false;
      }
      i := i + 1;
    }
    return true;
  }

  /** `cJSON_Compare` */
  method CompareItems(a: Json, b: Json, cs: bool) returns (equal: bool)
    ensures equal == Compare(a, b, cs)
    decreases Depth(a) + Depth(b), 0
  {
    if a.Arr? && b.Arr? {
      equal := CompareArrays(a.items, b.items, cs);
    } else if a.Obj? && b.Obj? {
      CompareObjects(a.members, b.members, cs);
      equal := CompareMembers(a.members, b.members, cs);
      if equal {
        equal := CompareMembers(b.members, a.members, cs);
      }
    } else {
      equal := a == b;
    }
  }

  // ----- what it means

  /** A document without the order of its members. */
  datatype Canon = CLeaf(v: Json) | CArr(items: seq<Canon>) | CObj(members: map<bytes, Canon>)

  function Canonical(v: Json, cs: bool): Canon
    decreases v, 1
  {
    match v
    case Arr(items) => CArr(seq(|items|, i requires 0 <= i < |items| => Canonical(items[i], cs)))
    case Obj(members) => CObj(CanonicalMembers(members, cs))
    case _ => CLeaf(v)
  }

  function CanonicalMembers(members: seq<Member>, cs: bool): map<bytes, Canon>
    decreases members, 0
  {
    if members == [] then map[]
    else CanonicalMembers(members[1..], cs)[Folded(members[0].key, cs) := Canonical(members[0].value, cs)]
  }

  /** Members of one object that share a name mean the same, at every level. */
  predicate Agrees(v: Json, cs: bool) {
    match v
    case Arr(items) => forall i :: 0 <= i < |items| ==> Agrees(items[i], cs)
    case Obj(members) => SameMeaning(members, cs) && forall i :: 0 <= i < |members| ==> Agrees(members[i].value, cs)
    case _ => true
  }

  predicate SameMeaning(members: seq<Member>, cs: bool) {
    forall i, j :: 0 <= i < |members| && 0 <= j < |members| && SameName(members[i].key, members[j].key, cs) ==>
      Canonical(members[i].value, cs) == Canonical(members[j].value, cs)
  }

  lemma {:induction false} CanonicalLookup(members: seq<Member>, name: bytes, cs: bool)
    ensures Folded(name, cs) in CanonicalMembers(members, cs) <==> Lookup(members, name, cs).Some?
    ensures Lookup(members, name, cs).Some? ==>
              CanonicalMembers(members, cs)[Folded(name, cs)] == Canonical(Lookup(members, name, cs).value, cs)
  {
    hide Canonical, Folded;
    if members != [] {
      CanonicalLookup(members[1..], name, cs);
    }
  }

  /** A key of the map stems from a member, and so does its value. */
  lemma {:induction false} CanonicalKeys(members: seq<Member>, key: bytes, cs: bool)
    ensures key in CanonicalMembers(members, cs) ==>
              exists i :: 0 <= i < |members| && Folded(members[i].key, cs) == key
                          && CanonicalMembers(members, cs)[key] == Canonical(members[i].value, cs)
  {
    hide Canonical, Folded;
    if members != [] && key in CanonicalMembers(members, cs) {
      var rest := members[1..];
      CanonicalKeys(rest, key, cs);
      if key == Folded(members[0].key, cs) {
        assert CanonicalMembers(members, cs)[key] == Canonical(members[0].value, cs);
      } else {
        var i :| 0 <= i < |rest| && Folded(rest[i].key, cs) == key
                 && CanonicalMembers(rest, cs)[key] == Canonical(rest[i].value, cs);
        assert rest[i] == members[i + 1];
      }
    }
  }

  lemma {:induction false} CanonicalHas(members: seq<Member>, i: nat, cs: bool)
    requires i < |members|
    ensures Folded(members[i].key, cs) in CanonicalMembers(members, cs)
    decreases i
  {
    hide Canonical, Folded;
    if i > 0 {
      CanonicalHas(members[1..], i - 1, cs);
    }
  }

  lemma {:induction false} LookupIsMember(members: seq<Member>, name: bytes, cs: bool)
    ensures Lookup(members, name, cs).Some? ==>
              exists j :: 0 <= j < |members| && Lookup(members, name, cs) == Some(members[j].value)
  {
    if members != [] && !SameName(name, members[0].key, cs) {
      LookupIsMember(members[1..], name, cs);
      if Lookup(members, name, cs).Some? {
        var j :| 0 <= j < |members| - 1 && Lookup(members, name, cs) == Some(members[1..][j].value);
        assert members[1..][j] == members[j + 1];
      }
    }
  }

  /** What it takes for a member to have its match in another object. */
  predicate Meets(m: Member, ns: seq<Member>, cs: bool) {
    var (k, c) := (Folded(m.key, cs), CanonicalMembers(ns, cs));
    && k in c && c[k] == Canonical(m.value, cs) && Agrees(m.value, cs)
    && Lookup(ns, m.key, cs).Some? && Agrees(Lookup(ns, m.key, cs).value, cs)
  }

  lemma MemberIff(ms: seq<Member>, ns: seq<Member>, i: nat, cs: bool)
    requires i < |ms|
    ensures MemberMatches(ms[i], ns, cs) <==> Meets(ms[i], ns, cs)
    decreases Depth(Obj(ms)) + Depth(Obj(ns)), 0
  {
    hide Compare, Canonical, Folded, Agrees;
    CanonicalLookup(ns, ms[i].key, cs);
    MemberDepth(ms, i);
    var other := Lookup(ns, ms[i].key, cs);
    if other.Some? {
      CompareIff(ms[i].value, other.value, cs);
    }
  }

  /** The first map is part of the second. */
  predicate PartOf(a: map<bytes, Canon>, b: map<bytes, Canon>) {
    forall k <- a.Keys :: k in b && a[k] == b[k]
  }

  lemma PartsOfEachOther(a: map<bytes, Canon>, b: map<bytes, Canon>)
    ensures PartOf(a, b) && PartOf(b, a) <==> a == b
  {
    if PartOf(a, b) && PartOf(b, a) {
      assert forall k :: k in a.Keys <==> k in b.Keys;
      assert a.Keys == b.Keys;
    }
  }

  lemma ObjectsIff(ms: seq<Member>, ns: seq<Member>, cs: bool)
    ensures Compare(Obj(ms), Obj(ns), cs)
            <==> Agrees(Obj(ms), cs) && Agrees(Obj(ns), cs) && CanonicalMembers(ms, cs) == CanonicalMembers(ns, cs)
    decreases Depth(Obj(ms)) + Depth(Obj(ns)), 2
  {
    hide Canonical, Compare, Meets, Agrees, Folded;
    CompareObjects(ms, ns, cs);
    forall i | 0 <= i < |ms| ensures MemberMatches(ms[i], ns, cs) <==> Meets(ms[i], ns, cs) {
      MemberIff(ms, ns, i, cs);
    }
    forall i | 0 <= i < |ns| ensures MemberMatches(ns[i], ms, cs) <==> Meets(ns[i], ms, cs) {
      MemberIff(ns, ms, i, cs);
    }
    if Covered(ms, ns, cs) && Covered(ns, ms, cs) {
      AllMeet(ms, ns, cs);
      AllMeet(ns, ms, cs);
      PartsOfEachOther(CanonicalMembers(ms, cs), CanonicalMembers(ns, cs));
    } else if Agrees(Obj(ms), cs) && Agrees(Obj(ns), cs) && CanonicalMembers(ms, cs) == CanonicalMembers(ns, cs) {
      forall i | 0 <= i < |ms| ensures Meets(ms[i], ns, cs) {
        EqualMeets(ms, ns, i, cs);
      }
      forall i | 0 <= i < |ns| ensures Meets(ns[i], ms, cs) {
        EqualMeets(ns, ms, i, cs);
      }
    }
  }

  /** If every member has its match, the object agrees with itself and is part of the other. */
  lemma AllMeet(ms: seq<Member>, ns: seq<Member>, cs: bool)
    requires forall i :: 0 <= i < |ms| ==> Meets(ms[i], ns, cs)
    ensures Agrees(Obj(ms), cs) && PartOf(CanonicalMembers(ms, cs), CanonicalMembers(ns, cs))
  {
    hide Canonical, Lookup, Folded;
    var (a, b) := (CanonicalMembers(ms, cs), CanonicalMembers(ns, cs));
    assert forall i :: 0 <= i < |ms| ==> b[Folded(ms[i].key, cs)] == Canonical(ms[i].value, cs);
    assert SameMeaning(ms, cs);
    forall k <- a.Keys ensures k in b && a[k] == b[k] {
      CanonicalKeys(ms, k, cs);
      var i :| 0 <= i < |ms| && Folded(ms[i].key, cs) == k && a[k] == Canonical(ms[i].value, cs);
      assert Meets(ms[i], ns, cs);
    }
  }

  lemma EqualMeets(ms: seq<Member>, ns: seq<Member>, i: nat, cs: bool)
    requires i < |ms| && Agrees(Obj(ms), cs) && Agrees(Obj(ns), cs)
    requires CanonicalMembers(ms, cs) == CanonicalMembers(ns, cs)
    ensures Meets(ms[i], ns, cs)
  {
    hide Canonical, Lookup, Folded;
    var k := Folded(ms[i].key, cs);
    CanonicalHas(ms, i, cs);
    CanonicalKeys(ms, k, cs);
    CanonicalLookup(ns, ms[i].key, cs);
    LookupIsMember(ns, ms[i].key, cs);
    var j :| 0 <= j < |ms| && Folded(ms[j].key, cs) == k && CanonicalMembers(ms, cs)[k] == Canonical(ms[j].value, cs);
    assert SameName(ms[i].key, ms[j].key, cs);
    var l :| 0 <= l < |ns| && Lookup(ns, ms[i].key, cs) == Some(ns[l].value);
  }

  /** `cJSON_Compare` decides whether two items are the same document up to the order of
      members, neither of them giving one name two meanings. */
  lemma {:induction false} CompareIff(a: Json, b: Json, cs: bool)
    ensures Compare(a, b, cs) <==> Agrees(a, cs) && Agrees(b, cs) && Canonical(a, cs) == Canonical(b, cs)
    decreases Depth(a) + Depth(b), 3
  {
    if a.Arr? && b.Arr? {
      if |a.items| == |b.items| {
        forall i | 0 <= i < |a.items|
          ensures ItemsMatch(a.items[i], b.items[i], cs)
        {
          ItemDepth(a.items, i);
          ItemDepth(b.items, i);
          CompareIff(a.items[i], b.items[i], cs);
        }
        ItemsIff(a.items, b.items, cs);
      } else {
        assert |Canonical(a, cs).items| != |Canonical(b, cs).items|;
      }
    } else if a.Obj? && b.Obj? {
      ObjectsIff(a.members, b.members, cs);
    }
  }

  predicate ItemsMatch(x: Json, y: Json, cs: bool) {
    Compare(x, y, cs) <==> Agrees(x, cs) && Agrees(y, cs) && Canonical(x, cs) == Canonical(y, cs)
  }

  lemma ItemsIff(xs: seq<Json>, ys: seq<Json>, cs: bool)
    requires |xs| == |ys|
    requires forall i :: 0 <= i < |xs| ==> ItemsMatch(xs[i], ys[i], cs)
    ensures ItemsMatch(Arr(xs), Arr(ys), cs)
  {
    var (p, q) := (Canonical(Arr(xs), cs).items, Canonical(Arr(ys), cs).items);
    assert Canonical(Arr(xs), cs) == CArr(p) && Canonical(Arr(ys), cs) == CArr(q);
    assert forall i :: 0 <= i < |xs| ==> p[i] == Canonical(xs[i], cs) && q[i] == Canonical(ys[i], cs);
    assert forall i :: 0 <= i < |xs| ==> ItemsMatch(xs[i], ys[i], cs);
    if Compare(Arr(xs), Arr(ys), cs) {
      forall i | 0 <= i < |xs| ensures p[i] == q[i] && Agrees(xs[i], cs) && Agrees(ys[i], cs) {
        assert Compare(xs[i], ys[i], cs);
      }
    }
    if p == q && Agrees(Arr(xs), cs) && Agrees(Arr(ys), cs) {
      forall i | 0 <= i < |xs| ensures Compare(xs[i], ys[i], cs) {
        assert p[i] == q[i];
      }
    }
  }

  /** An item equals its copy if and only if no object in it gives one name two meanings. */
  lemma CopyComparesIff(v: Json, cs: bool)
    ensures Compare(v, v, cs) <==> Agrees(v, cs)
  {
    CompareIff(v, v, cs);
  }

  /** A name may be used twice, but not with two meanings. */
  lemma {:induction false} RepeatedNames()
    ensures !Agrees(Obj([Member([97], Int(1)), Member([97], Int(2))]), true)
    ensures Agrees(Obj([Member([97], Int(1)), Member([97], Int(1))]), true)
  {
    var (x, y) := (Member([97], Int(1)), Member([97], Int(2)));
    assert [x, y][0] == x && [x, y][1] == y && SameName(x.key, y.key, true);
    assert Canonical(x.value, true) != Canonical(y.value, true);
    assert !SameMeaning([x, y], true);
  }
}
