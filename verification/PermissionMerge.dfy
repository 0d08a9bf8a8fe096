/** Merging two robot accounts' permission lists under the three merge policies, read as
    sets of grants.  A map key built by joining two strings with a colon stands for the
    pair of them. */
module PermissionMerge {
  import opened Collections
  import opened Wrappers

  datatype Access = Access(resource: string, action: string)

  datatype Key = Key(kind: string, namespace: string)

  datatype Permission = Permission(key: Key, access: seq<Access>)

  // ---------------------------------------------------------------- grants of a list

  /** Some permission of the list grants it. */
  ghost predicate Granted(perms: seq<Permission>, key: Key, a: Access) {
    exists i :: 0 <= i < |perms| && perms[i].key == key && a in perms[i].access
  }

  /** The last permission under each key, as a map filled in list order holds it. */
  function LastByKey(perms: seq<Permission>): map<Key, Permission>
    decreases |perms|
  {
    if perms == [] then map[]
    else
      var last := perms[|perms| - 1];
      LastByKey(perms[..|perms| - 1])[last.key := last]
  }

  ghost predicate MapGrants(m: map<Key, Permission>, key: Key, a: Access) {
    key in m && a in m[key].access
  }

  ghost predicate DistinctKeys(perms: seq<Permission>) {
    forall i, j :: 0 <= i < j < |perms| ==> perms[i].key != perms[j].key
  }

  ghost function Keys(perms: seq<Permission>): set<Key> {
    set i | 0 <= i < |perms| :: perms[i].key
  }

  lemma {:induction false} LastByKeyExactly(perms: seq<Permission>, key: Key)
    ensures key in LastByKey(perms) <==> key in Keys(perms)
    ensures key in LastByKey(perms) ==>
      exists i :: 0 <= i < |perms| && LastByKey(perms)[key] == perms[i] && perms[i].key == key
                  && forall j :: i < j < |perms| ==> perms[j].key != key
    decreases |perms|
  {
    if perms != [] {
      var n := |perms| - 1;
      LastByKeyExactly(perms[..n], key);
      if perms[n].key != key && key in LastByKey(perms) {
        var i :| 0 <= i < n && LastByKey(perms[..n])[key] == perms[..n][i] && perms[..n][i].key == key
                 && forall j :: i < j < n ==> perms[..n][j].key != key;
        assert perms[i] == perms[..n][i];
        assert forall j :: i < j < |perms| ==> perms[j] == if j < n then perms[..n][j] else perms[n];
      }
    }
  }

  lemma LastIsGranted(perms: seq<Permission>, key: Key, a: Access)
    requires MapGrants(LastByKey(perms), key, a)
    ensures Granted(perms, key, a)
  {
    LastByKeyExactly(perms, key);
  }

  lemma DistinctKeepAll(perms: seq<Permission>, key: Key, a: Access)
    requires DistinctKeys(perms)
    ensures Granted(perms, key, a) <==> MapGrants(LastByKey(perms), key, a)
  {
    LastByKeyExactly(perms, key);
    if Granted(perms, key, a) {
      var i :| 0 <= i < |perms| && perms[i].key == key && a in perms[i].access;
      assert key in Keys(perms);
    }
  }

  // ------------------------------------------------------------------- access lists

  /** First occurrences, in order. */
  function Deduped(s: seq<Access>): (r: seq<Access>)
    ensures forall x :: x in r <==> x in s
    ensures forall i, j :: 0 <= i < j < |r| ==> r[i] != r[j]
    decreases |s|
  {
    if s == [] then []
    else
      var front, last := Deduped(s[..|s| - 1]), s[|s| - 1];
      if last in front then front else front + [last]
  }

  lemma DedupedOneMore(before: seq<Access>, more: seq<Access>, i: nat)
    requires i < |more|
    ensures var r := Deduped(before + more[..i]);
      Deduped(before + more[..i + 1]) == if more[i] in r then r else r + [more[i]]
  {
    assert (before + more[..i + 1])[..|before| + i] == before + more[..i];
  }

  method AddNew(result: seq<Access>, before: seq<Access>, more: seq<Access>) returns (r: seq<Access>)
    requires result == Deduped(before)
    ensures r == Deduped(before + more)
  {
    r := result;
    assert before + more[..0] == before;
    for i := 0 to |more|
      invariant r == Deduped(before + more[..i])
    {
      DedupedOneMore(before, more, i);
      if more[i] !in r {
        r := r + [more[i]];
      }
    }
    assert more[..|more|] == more;
  }

  method MergeAccess(source: seq<Access>, target: seq<Access>) returns (r: seq<Access>)
    ensures r == Deduped(source + target)
  {
    r := AddNew([], [], source);
    assert [] + source == source;
    r := AddNew(r, source, target);
  }

  function Common(source: seq<Access>, target: seq<Access>): (r: seq<Access>)
    ensures forall x :: x in r <==> x in source && x in target
    decreases |target|
  {
    if target == [] then []
    else
      var last := target[|target| - 1];
      Common(source, target[..|target| - 1]) + if last in source then [last] else []
  }

  method IntersectAccess(source: seq<Access>, target: seq<Access>) returns (r: seq<Access>)
    ensures r == Common(source, target)
  {
    r := [];
    for i := 0 to |target|
      invariant r == Common(source, target[..i])
    {
      assert target[..i + 1][..i] == target[..i];
      if target[i] in source {
        r := r + [target[i]];
      }
    }
    assert target[..|target|] == target;
  }

  // --------------------------------------------------------------- order of the keys

  predicate Before(a: string, b: string)
    decreases |a|
  {
    if b == [] then false
    else if a == [] then true
    else if a[0] != b[0] then a[0] < b[0]
    else Before(a[1..], b[1..])
  }

  predicate KeyBefore(a: Key, b: Key) {
    if a.kind != b.kind then Before(a.kind, b.kind) else Before(a.namespace, b.namespace)
  }

  lemma {:induction false} BeforeIsTotal(a: string, b: string)
    ensures Before(a, b) || Before(b, a) || a == b
    ensures !(Before(a, b) && Before(b, a)) && !(a == b && Before(a, b))
    decreases |a|
  {
    if a != [] && b != [] {
      assert a == [a[0]] + a[1..] && b == [b[0]] + b[1..];
      BeforeIsTotal(a[1..], b[1..]);
    }
  }

  lemma {:induction false} BeforeIsTransitive(a: string, b: string, c: string)
    requires Before(a, b) && Before(b, c)
    ensures Before(a, c)
    decreases |a|
  {
    if a != [] && a[0] == b[0] == c[0] {
      BeforeIsTransitive(a[1..], b[1..], c[1..]);
    }
  }

  lemma KeyBeforeIsTotal(a: Key, b: Key)
    ensures KeyBefore(a, b) || KeyBefore(b, a) || a == b
    ensures !(KeyBefore(a, b) && KeyBefore(b, a)) && !(a == b && KeyBefore(a, b))
  {
    BeforeIsTotal(a.kind, b.kind);
    BeforeIsTotal(a.namespace, b.namespace);
  }

  lemma KeyBeforeIsTransitive(a: Key, b: Key, c: Key)
    requires KeyBefore(a, b) && KeyBefore(b, c)
    ensures KeyBefore(a, c)
  {
    BeforeIsTotal(a.kind, b.kind);
    BeforeIsTotal(b.kind, c.kind);
    if a.kind != b.kind && b.kind != c.kind {
      BeforeIsTransitive(a.kind, b.kind, c.kind);
      BeforeIsTotal(a.kind, c.kind);
    } else if a.kind == b.kind == c.kind {
      BeforeIsTransitive(a.namespace, b.namespace, c.namespace);
    }
  }

  ghost predicate Sorted(perms: seq<Permission>) {
    forall i, j :: 0 <= i < j < |perms| ==> KeyBefore(perms[i].key, perms[j].key)
  }

  // ------------------------------------------------------------------ the union policy

  /** One target permission added to the map. */
  function Added(m: map<Key, Permission>, p: Permission): map<Key, Permission> {
    m[p.key := if p.key in m then Permission(p.key, Deduped(m[p.key].access + p.access)) else p]
  }

  function UnionMap(source: seq<Permission>, target: seq<Permission>): map<Key, Permission>
    decreases |target|
  {
    if target == [] then LastByKey(source)
    else Added(UnionMap(source, target[..|target| - 1]), target[|target| - 1])
  }

  ghost predicate KeyedRight(m: map<Key, Permission>) {
    forall key :: key in m ==> m[key].key == key
  }

  /** `perms` lists the entries of `m`, each once. */
  ghost predicate Lists(perms: seq<Permission>, m: map<Key, Permission>) {
    && DistinctKeys(perms)
    && (forall i :: 0 <= i < |perms| ==> perms[i].key in m && m[perms[i].key] == perms[i])
    && (forall key :: key in m ==> m[key].key == key && m[key] in perms)
  }

  lemma {:induction false} UnionMapGrants(source: seq<Permission>, target: seq<Permission>, key: Key, a: Access)
    ensures MapGrants(UnionMap(source, target), key, a) <==> MapGrants(LastByKey(source), key, a) || Granted(target, key, a)
    ensures key in UnionMap(source, target) <==> key in Keys(source) || key in Keys(target)
    decreases |target|
  {
    LastByKeyExactly(source, key);
    if target != [] {
      var n := |target| - 1;
      UnionMapGrants(source, target[..n], key, a);
      assert Granted(target, key, a) <==> Granted(target[..n], key, a) || (target[n].key == key && a in target[n].access) by {
        assert forall i :: 0 <= i < n ==> target[..n][i] == target[i];
      }
      assert key in Keys(target) <==> key in Keys(target[..n]) || target[n].key == key by {
        assert forall i :: 0 <= i < n ==> target[..n][i] == target[i];
      }
    }
  }

  lemma {:induction false} UnionMapKeyed(source: seq<Permission>, target: seq<Permission>)
    ensures KeyedRight(UnionMap(source, target))
    decreases |target|
  {
    if target == [] {
      forall key | key in LastByKey(source) ensures LastByKey(source)[key].key == key {
        LastByKeyExactly(source, key);
      }
    } else {
      UnionMapKeyed(source, target[..|target| - 1]);
    }
  }

  lemma {:induction false} KeysSize(perms: seq<Permission>)
    ensures |Keys(perms)| <= |perms|
    ensures |Keys(perms)| == |perms| <==> DistinctKeys(perms)
    decreases |perms|
  {
    if perms == [] {
      assert Keys(perms) == {};
    } else {
      var n := |perms| - 1;
      var front, last := perms[..n], perms[n].key;
      KeysSize(front);
      assert forall i :: 0 <= i < n ==> front[i] == perms[i];
      assert Keys(perms) == Keys(front) + {last};
      if last in Keys(front) {
        assert Keys(perms) == Keys(front);
        var i :| 0 <= i < n && front[i].key == last;
        assert perms[i].key == perms[n].key;
      }
    }
  }

  lemma ListingSize(perms: seq<Permission>, m: map<Key, Permission>)
    requires Lists(perms, m)
    ensures |perms| == |m|
  {
    KeysSize(perms);
    forall key ensures key in Keys(perms) <==> key in m {
      if key in m {
        var i :| 0 <= i < |perms| && perms[i] == m[key];
        assert perms[i].key == key;
      }
    }
    assert Keys(perms) == m.Keys;
  }

  /** Listing a map in key order leaves no choice. */
  lemma {:induction false} SortedListingIsUnique(p: seq<Permission>, q: seq<Permission>, m: map<Key, Permission>)
    requires Lists(p, m) && Lists(q, m) && Sorted(p) && Sorted(q)
    ensures p == q
    decreases |p|
  {
    if p == [] {
      ListingSize(p, m);
      ListingSize(q, m);
    } else {
      assert p[0] in q;
      assert q[0] in p;
      KeyBeforeIsTotal(p[0].key, q[0].key);
      assert p[0] == q[0];
      ListsRest(p, m);
      ListsRest(q, m);
      SortedListingIsUnique(p[1..], q[1..], m - {p[0].key});
    }
  }

  lemma ListsRest(p: seq<Permission>, m: map<Key, Permission>)
    requires p != [] && Lists(p, m)
    ensures Lists(p[1..], m - {p[0].key})
  {
    var rest := m - {p[0].key};
    forall key | key in rest ensures rest[key] in p[1..] {
      assert m[key] in p;
      assert p == [p[0]] + p[1..];
    }
  }

  function Insert(p: Permission, sorted: seq<Permission>): (r: seq<Permission>)
    ensures forall x :: x in r <==> x == p || x in sorted
    ensures |r| == |sorted| + 1
    decreases |sorted|
  {
    if sorted == [] then [p]
    else if KeyBefore(p.key, sorted[0].key) then [p] + sorted
    else [sorted[0]] + Insert(p, sorted[1..])
  }

  lemma {:induction false} InsertSorts(p: Permission, sorted: seq<Permission>)
    requires Sorted(sorted) && forall q :: q in sorted ==> q.key != p.key
    ensures Sorted(Insert(p, sorted))
    decreases |sorted|
  {
    if sorted != [] {
      KeyBeforeIsTotal(p.key, sorted[0].key);
      if KeyBefore(p.key, sorted[0].key) {
        forall i | 0 < i < |sorted| ensures KeyBefore(p.key, sorted[i].key) {
          KeyBeforeIsTransitive(p.key, sorted[0].key, sorted[i].key);
        }
      } else {
        InsertSorts(p, sorted[1..]);
        var rest := Insert(p, sorted[1..]);
        forall i | 0 <= i < |rest| ensures KeyBefore(sorted[0].key, rest[i].key) {
          assert rest[i] in rest;
          if rest[i] != p {
            var j :| 0 <= j < |sorted[1..]| && sorted[1..][j] == rest[i];
            assert sorted[j + 1] == rest[i];
          }
        }
      }
    }
  }

  lemma SortedKeysAreDistinct(perms: seq<Permission>)
    requires Sorted(perms)
    ensures DistinctKeys(perms)
  {
    forall i, j | 0 <= i < j < |perms| ensures perms[i].key != perms[j].key {
      KeyBeforeIsTotal(perms[i].key, perms[j].key);
    }
  }

  /** Stands for the loop over the map, in any order, and the sort after it. */
  method SortedEntries(m: map<Key, Permission>) returns (r: seq<Permission>)
    requires KeyedRight(m)
    ensures Lists(r, m) && Sorted(r)
  {
    r := [];
    var left := m.Keys;
    while left != {}
      invariant left <= m.Keys && Sorted(r)
      invariant forall p :: p in r <==> p.key in m && p.key !in left && m[p.key] == p
    {
      var key :| key in left;
      InsertSorts(m[key], r);
      r := Insert(m[key], r);
      left := left - {key};
    }
    SortedKeysAreDistinct(r);
  }

  method MergePermissionsUnion(source: seq<Permission>, target: seq<Permission>) returns (r: seq<Permission>)
    ensures Lists(r, UnionMap(source, target)) && Sorted(r)
  {
    var permMap: map<Key, Permission> := map[];
    for i := 0 to |source|
      invariant permMap == LastByKey(source[..i])
    {
      assert source[..i + 1][..i] == source[..i];
      permMap := permMap[source[i].key := source[i]];
    }
    assert source[..|source|] == source;
    for i := 0 to |target|
      invariant permMap == UnionMap(source, target[..i])
    {
      assert target[..i + 1][..i] == target[..i];
      UnionMapKeyed(source, target[..i]);
      var perm := target[i];
      if perm.key in permMap {
        var merged := MergeAccess(permMap[perm.key].access, perm.access);
        permMap := permMap[perm.key := permMap[perm.key].(access := merged)];
      } else {
        permMap := permMap[perm.key := perm];
      }
    }
    assert target[..|target|] == target;
    UnionMapKeyed(source, target);
    r := SortedEntries(permMap);
  }

  lemma ListGrants(perms: seq<Permission>, m: map<Key, Permission>, key: Key, a: Access)
    requires Lists(perms, m) && KeyedRight(m)
    ensures Granted(perms, key, a) <==> MapGrants(m, key, a)
  {
    if MapGrants(m, key, a) {
      assert m[key] in perms;
    }
  }

  /** Any result of the union policy, whatever order the map was visited in. */
  ghost predicate IsUnion(r: seq<Permission>, source: seq<Permission>, target: seq<Permission>) {
    Lists(r, UnionMap(source, target)) && Sorted(r)
  }

  lemma UnionIsUnique(r: seq<Permission>, q: seq<Permission>, source: seq<Permission>, target: seq<Permission>)
    requires IsUnion(r, source, target) && IsUnion(q, source, target)
    ensures r == q
  {
    SortedListingIsUnique(r, q, UnionMap(source, target));
  }

  /** For all inputs: the grants of the target, and of the last source permission under
      each key. */
  lemma UnionGrants(r: seq<Permission>, source: seq<Permission>, target: seq<Permission>, key: Key, a: Access)
    requires IsUnion(r, source, target)
    ensures Granted(r, key, a) <==> MapGrants(LastByKey(source), key, a) || Granted(target, key, a)
  {
    UnionMapGrants(source, target, key, a);
    UnionMapKeyed(source, target);
    ListGrants(r, UnionMap(source, target), key, a);
  }

  ghost predicate GrantsEither(r: seq<Permission>, p: seq<Permission>, q: seq<Permission>) {
    forall key, a :: Granted(r, key, a) <==> Granted(p, key, a) || Granted(q, key, a)
  }

  ghost predicate SameGrants(p: seq<Permission>, q: seq<Permission>) {
    forall key, a :: Granted(p, key, a) <==> Granted(q, key, a)
  }

  /** What a source permission hidden by a later one of its key grants is granted again. */
  ghost predicate NothingHidden(source: seq<Permission>, target: seq<Permission>) {
    forall key, a :: Granted(source, key, a) ==> MapGrants(LastByKey(source), key, a) || Granted(target, key, a)
  }

  lemma DistinctHideNothing(source: seq<Permission>, target: seq<Permission>)
    requires DistinctKeys(source)
    ensures NothingHidden(source, target)
  {
    forall key, a | Granted(source, key, a) ensures MapGrants(LastByKey(source), key, a) {
      DistinctKeepAll(source, key, a);
    }
  }

  lemma UnionIsSetUnionIff(r: seq<Permission>, source: seq<Permission>, target: seq<Permission>)
    requires IsUnion(r, source, target)
    ensures GrantsEither(r, source, target) <==> NothingHidden(source, target)
    ensures DistinctKeys(source) ==> GrantsEither(r, source, target)
  {
    forall key, a
      ensures Granted(r, key, a) <==> MapGrants(LastByKey(source), key, a) || Granted(target, key, a)
      ensures MapGrants(LastByKey(source), key, a) ==> Granted(source, key, a) {
      UnionGrants(r, source, target, key, a);
      if MapGrants(LastByKey(source), key, a) {
        LastIsGranted(source, key, a);
      }
    }
    if DistinctKeys(source) {
      DistinctHideNothing(source, target);
    }
  }

  /** Merging an input into the result again changes no grant, on either side; the one
      exception is the source as target, when the first merge hid some of its grants. */
  lemma RemergeChangesNothing(r: seq<Permission>, again: seq<Permission>, source: seq<Permission>, target: seq<Permission>)
    requires IsUnion(r, source, target)
    ensures IsUnion(again, r, target) ==> SameGrants(again, r)
    ensures IsUnion(again, target, r) ==> SameGrants(again, r)
    ensures IsUnion(again, source, r) ==> SameGrants(again, r)
    ensures IsUnion(again, r, source) ==> (SameGrants(again, r) <==> NothingHidden(source, target))
  {
    forall key, a
      ensures Granted(r, key, a) <==> MapGrants(LastByKey(source), key, a) || Granted(target, key, a)
      ensures Granted(r, key, a) <==> MapGrants(LastByKey(r), key, a)
      ensures MapGrants(LastByKey(target), key, a) ==> Granted(target, key, a) {
      UnionGrants(r, source, target, key, a);
      DistinctKeepAll(r, key, a);
      if MapGrants(LastByKey(target), key, a) {
        LastIsGranted(target, key, a);
      }
    }
    forall key, a
      ensures IsUnion(again, r, target) ==> (Granted(again, key, a) <==> Granted(r, key, a) || Granted(target, key, a))
      ensures IsUnion(again, target, r) ==> (Granted(again, key, a) <==> MapGrants(LastByKey(target), key, a) || Granted(r, key, a))
      ensures IsUnion(again, source, r) ==> (Granted(again, key, a) <==> MapGrants(LastByKey(source), key, a) || Granted(r, key, a))
      ensures IsUnion(again, r, source) ==> (Granted(again, key, a) <==> Granted(r, key, a) || Granted(source, key, a)) {
      if IsUnion(again, r, target) { UnionGrants(again, r, target, key, a); }
      if IsUnion(again, target, r) { UnionGrants(again, target, r, key, a); }
      if IsUnion(again, source, r) { UnionGrants(again, source, r, key, a); }
      if IsUnion(again, r, source) { UnionGrants(again, r, source, key, a); }
    }
  }

  // ----------------------------------------------------------- the intersection policy

  function Shared(source: seq<Permission>, target: seq<Permission>, key: Key): seq<Access> {
    var s, t := LastByKey(source), LastByKey(target);
    if key in s && key in t then Common(s[key].access, t[key].access) else []
  }

  /** One permission for each key whose last permissions share an access; the order is
      the map's. */
  ghost predicate IsIntersection(r: seq<Permission>, source: seq<Permission>, target: seq<Permission>) {
    && DistinctKeys(r)
    && (forall i :: 0 <= i < |r| ==> r[i].access != [] && r[i] == Permission(r[i].key, Shared(source, target, r[i].key)))
    && (forall key :: Shared(source, target, key) != [] ==> Permission(key, Shared(source, target, key)) in r)
  }

  lemma LastKeyed(perms: seq<Permission>)
    ensures KeyedRight(LastByKey(perms))
  {
    UnionMapKeyed(perms, []);
  }

  method MergePermissionsIntersection(source: seq<Permission>, target: seq<Permission>) returns (r: seq<Permission>)
    ensures IsIntersection(r, source, target)
  {
    var sourceMap: map<Key, Permission> := map[];
    for i := 0 to |source|
      invariant sourceMap == LastByKey(source[..i])
    {
      assert source[..i + 1][..i] == source[..i];
      sourceMap := sourceMap[source[i].key := source[i]];
    }
    assert source[..|source|] == source;
    var targetMap: map<Key, Permission> := map[];
    for i := 0 to |target|
      invariant targetMap == LastByKey(target[..i])
    {
      assert target[..i + 1][..i] == target[..i];
      targetMap := targetMap[target[i].key := target[i]];
    }
    assert target[..|target|] == target;
    LastKeyed(source);
    r := [];
    var left := sourceMap.Keys;
    while left != {}
      invariant left <= sourceMap.Keys && DistinctKeys(r)
      invariant forall i :: 0 <= i < |r| ==>
        r[i].key !in left && r[i].access != [] && r[i] == Permission(r[i].key, Shared(source, target, r[i].key))
      invariant forall key :: Shared(source, target, key) != [] && key !in left ==> Permission(key, Shared(source, target, key)) in r
    {
      var key :| key in left;
      left := left - {key};
      if key in targetMap {
        var merged := IntersectAccess(sourceMap[key].access, targetMap[key].access);
        if |merged| > 0 {
          r := r + [sourceMap[key].(access := merged)];
        }
      }
    }
  }

  /** For all inputs: what the last permissions of a key on both sides grant. */
  lemma IntersectionGrants(r: seq<Permission>, source: seq<Permission>, target: seq<Permission>, key: Key, a: Access)
    requires IsIntersection(r, source, target)
    ensures Granted(r, key, a) <==> MapGrants(LastByKey(source), key, a) && MapGrants(LastByKey(target), key, a)
  {
    var shared := Shared(source, target, key);
    if a in shared {
      assert Permission(key, shared) in r;
    }
  }

  ghost predicate GrantsBoth(r: seq<Permission>, p: seq<Permission>, q: seq<Permission>) {
    forall key, a :: Granted(r, key, a) <==> Granted(p, key, a) && Granted(q, key, a)
  }

  /** A grant of both lists is one of the last permissions of its key in both. */
  ghost predicate NothingCommonHidden(source: seq<Permission>, target: seq<Permission>) {
    forall key, a :: Granted(source, key, a) && Granted(target, key, a) ==>
      MapGrants(LastByKey(source), key, a) && MapGrants(LastByKey(target), key, a)
  }

  lemma IntersectionIsSetIntersectionIff(r: seq<Permission>, source: seq<Permission>, target: seq<Permission>)
    requires IsIntersection(r, source, target)
    ensures GrantsBoth(r, source, target) <==> NothingCommonHidden(source, target)
    ensures DistinctKeys(source) && DistinctKeys(target) ==> GrantsBoth(r, source, target)
  {
    forall key, a
      ensures Granted(r, key, a) <==> MapGrants(LastByKey(source), key, a) && MapGrants(LastByKey(target), key, a)
      ensures MapGrants(LastByKey(source), key, a) ==> Granted(source, key, a)
      ensures MapGrants(LastByKey(target), key, a) ==> Granted(target, key, a)
      ensures DistinctKeys(source) && Granted(source, key, a) ==> MapGrants(LastByKey(source), key, a)
      ensures DistinctKeys(target) && Granted(target, key, a) ==> MapGrants(LastByKey(target), key, a) {
      IntersectionGrants(r, source, target, key, a);
      if MapGrants(LastByKey(source), key, a) { LastIsGranted(source, key, a); }
      if MapGrants(LastByKey(target), key, a) { LastIsGranted(target, key, a); }
      if DistinctKeys(source) { DistinctKeepAll(source, key, a); }
      if DistinctKeys(target) { DistinctKeepAll(target, key, a); }
    }
  }

  // -------------------------------------------------------- the source-priority policy

  function WithoutKeys(perms: seq<Permission>, keys: set<Key>): seq<Permission>
    decreases |perms|
  {
    if perms == [] then []
    else
      var last := perms[|perms| - 1];
      WithoutKeys(perms[..|perms| - 1], keys) + if last.key in keys then [] else [last]
  }

  method MergePermissionsSourcePriority(source: seq<Permission>, target: seq<Permission>) returns (r: seq<Permission>)
    ensures r == source + WithoutKeys(target, Keys(source))
  {
    r := source;
    var keys: set<Key> := {};
    for i := 0 to |source|
      invariant keys == Keys(source[..i])
    {
      assert forall k :: 0 <= k < i ==> source[..i + 1][k] == source[..i][k];
      assert Keys(source[..i + 1]) == Keys(source[..i]) + {source[..i + 1][i].key};
      keys := keys + {source[i].key};
    }
    assert source[..|source|] == source;
    for i := 0 to |target|
      invariant r == source + WithoutKeys(target[..i], keys)
    {
      assert target[..i + 1][..i] == target[..i];
      if target[i].key !in keys {
        r := r + [target[i]];
      }
    }
    assert target[..|target|] == target;
  }

  lemma {:induction false} WithoutKeysGrants(perms: seq<Permission>, keys: set<Key>, key: Key, a: Access)
    ensures Granted(WithoutKeys(perms, keys), key, a) <==> Granted(perms, key, a) && key !in keys
    decreases |perms|
  {
    if perms != [] {
      var n := |perms| - 1;
      WithoutKeysGrants(perms[..n], keys, key, a);
      JoinGrants(perms[..n], [perms[n]], key, a);
      assert perms[..n] + [perms[n]] == perms;
      JoinGrants(WithoutKeys(perms[..n], keys), if perms[n].key in keys then [] else [perms[n]], key, a);
    }
  }

  lemma JoinGrants(p: seq<Permission>, q: seq<Permission>, key: Key, a: Access)
    ensures Granted(p + q, key, a) <==> Granted(p, key, a) || Granted(q, key, a)
  {
    if Granted(p, key, a) {
      var i :| 0 <= i < |p| && p[i].key == key && a in p[i].access;
      assert (p + q)[i] == p[i];
    }
    if Granted(q, key, a) {
      var i :| 0 <= i < |q| && q[i].key == key && a in q[i].access;
      assert (p + q)[|p| + i] == q[i];
    }
  }

  /** The source's grants, and the target's under keys the source does not have. */
  lemma SourcePriorityGrants(source: seq<Permission>, target: seq<Permission>, key: Key, a: Access)
    ensures Granted(source + WithoutKeys(target, Keys(source)), key, a)
       <==> Granted(source, key, a) || (Granted(target, key, a) && key !in Keys(source))
  {
    JoinGrants(source, WithoutKeys(target, Keys(source)), key, a);
    WithoutKeysGrants(target, Keys(source), key, a);
  }

  /** A key is decided by one side alone: the source, if it has the key at all. */
  lemma SourcePriorityIsUnionIff(source: seq<Permission>, target: seq<Permission>)
    ensures GrantsEither(source + WithoutKeys(target, Keys(source)), source, target)
       <==> forall key, a :: Granted(target, key, a) && key in Keys(source) ==> Granted(source, key, a)
  {
    forall key, a
      ensures Granted(source + WithoutKeys(target, Keys(source)), key, a)
         <==> Granted(source, key, a) || (Granted(target, key, a) && key !in Keys(source)) {
      SourcePriorityGrants(source, target, key, a);
    }
  }

  // -------------------------------------------------------------- the data-loss check

  /** The check rejects a merge that is shorter than both inputs. */
  predicate Rejected(resolved: seq<Permission>, source: seq<Permission>, target: seq<Permission>) {
    |resolved| < |source| && |resolved| < |target|
  }

  method CheckForDataLoss(resolved: seq<Permission>, source: seq<Permission>, target: seq<Permission>) returns (ok: bool)
    ensures ok <==> !Rejected(resolved, source, target)
  {
    var sourcePermCount, targetPermCount, resolvedPermCount := |source|, |target|, |resolved|;
    if resolvedPermCount < sourcePermCount && resolvedPermCount < targetPermCount {
      return false;
    }
    return true;
  }

  datatype Policy = Union | Intersection | SourcePriority

  ghost predicate IsMerge(policy: Policy, r: seq<Permission>, source: seq<Permission>, target: seq<Permission>) {
    match policy
    case Union => IsUnion(r, source, target)
    case Intersection => IsIntersection(r, source, target)
    case SourcePriority => r == source + WithoutKeys(target, Keys(source))
  }

  /** The keys under which both sides' last permissions share an access. */
  ghost function SharedKeys(source: seq<Permission>, target: seq<Permission>): set<Key> {
    set key | key in Keys(source) && Shared(source, target, key) != []
  }

  /** How many permissions any merge has, read off the inputs. */
  ghost function MergedSize(policy: Policy, source: seq<Permission>, target: seq<Permission>): nat {
    match policy
    case Union => |Keys(source) + Keys(target)|
    case Intersection => |SharedKeys(source, target)|
    case SourcePriority => |source| + |WithoutKeys(target, Keys(source))|
  }

  lemma UnionSize(r: seq<Permission>, source: seq<Permission>, target: seq<Permission>)
    requires IsUnion(r, source, target)
    ensures |r| == |Keys(source) + Keys(target)|
  {
    var m, keys := UnionMap(source, target), Keys(source) + Keys(target);
    ListingSize(r, m);
    forall key ensures key in m <==> key in keys {
      UnionMapGrants(source, target, key, Access("", ""));
    }
    assert m.Keys == keys;
  }

  lemma IntersectionSize(r: seq<Permission>, source: seq<Permission>, target: seq<Permission>)
    requires IsIntersection(r, source, target)
    ensures |r| == |SharedKeys(source, target)|
  {
    KeysSize(r);
    forall key ensures key in Keys(r) <==> key in SharedKeys(source, target) {
      if Shared(source, target, key) != [] {
        LastByKeyExactly(source, key);
        assert Permission(key, Shared(source, target, key)) in r;
      }
    }
    assert Keys(r) == SharedKeys(source, target);
  }

  lemma MergeSize(policy: Policy, r: seq<Permission>, source: seq<Permission>, target: seq<Permission>)
    requires IsMerge(policy, r, source, target)
    ensures |r| == MergedSize(policy, source, target)
  {
    match policy
    case Union => UnionSize(r, source, target);
    case Intersection => IntersectionSize(r, source, target);
    case SourcePriority =>
  }

  method MergePermissions(policy: Policy, source: seq<Permission>, target: seq<Permission>) returns (r: seq<Permission>)
    ensures IsMerge(policy, r, source, target)
  {
    match policy
    case Union => r := MergePermissionsUnion(source, target);
    case Intersection => r := MergePermissionsIntersection(source, target);
    case SourcePriority => r := MergePermissionsSourcePriority(source, target);
  }

  /** The merge, if it passes validation: under every policy the inputs decide whether it
      does, whatever the order of the maps. */
  method ResolveMergePermissions(policy: Policy, source: seq<Permission>, target: seq<Permission>, allowDataLoss: bool)
    returns (resolved: Option<seq<Permission>>)
    ensures resolved.Some? ==> IsMerge(policy, resolved.value, source, target)
    ensures resolved.None? <==>
      var n := MergedSize(policy, source, target);
      n == 0 || (!allowDataLoss && n < |source| && n < |target|)
  {
    var merged := MergePermissions(policy, source, target);
    MergeSize(policy, merged, source, target);
    if |merged| == 0 {
      return None;
    }
    if !allowDataLoss {
      var ok := CheckForDataLoss(merged, source, target);
      if !ok {
        return None;
      }
    }
    return Some(merged);
  }

  /** A union has one permission for each key of either side, so it is rejected exactly
      when both sides repeat so many keys that all keys together are fewer; never when
      one side's keys are distinct. */
  lemma UnionRejectedIff(r: seq<Permission>, source: seq<Permission>, target: seq<Permission>)
    requires IsUnion(r, source, target)
    ensures var keys := Keys(source) + Keys(target);
      Rejected(r, source, target) <==> |keys| < |source| && |keys| < |target|
    ensures DistinctKeys(source) || DistinctKeys(target) ==> !Rejected(r, source, target)
  {
    var keys := Keys(source) + Keys(target);
    UnionSize(r, source, target);
    KeysSize(source);
    KeysSize(target);
    SmallerSet(Keys(source), keys);
    SmallerSet(Keys(target), keys);
  }

  /** The check counts permissions, not grants: it rejects a union that loses nothing, and
      lets one pass that loses a grant. */
  lemma DataLossCheckCountsOnly() returns (twice: seq<Permission>, hiding: seq<Permission>, other: seq<Permission>, a: Access, key: Key)
    ensures forall r :: IsUnion(r, twice, twice) ==> Rejected(r, twice, twice) && SameGrants(r, twice)
    ensures Granted(hiding, key, a)
    ensures forall r :: IsUnion(r, hiding, other) ==> !Rejected(r, hiding, other) && !Granted(r, key, a)
  {
    key, a := Key("project", "library"), Access("repository", "pull");
    var p := Permission(key, [a]);
    twice, hiding := [p, p], [p, Permission(key, [])];
    other := [Permission(Key("system", "/"), [a])];
    forall r | IsUnion(r, twice, twice) ensures Rejected(r, twice, twice) && SameGrants(r, twice) {
      UnionRejectedIff(r, twice, twice);
      assert Keys(twice) == {key};
      assert Keys(twice) + Keys(twice) == {key};
      assert |{key}| == 1;
      assert NothingHidden(twice, twice);
      UnionIsSetUnionIff(r, twice, twice);
    }
    assert hiding[0] == p;
    forall r | IsUnion(r, hiding, other) ensures !Rejected(r, hiding, other) && !Granted(r, key, a) {
      assert DistinctKeys(other);
      UnionRejectedIff(r, hiding, other);
      UnionGrants(r, hiding, other, key, a);
      assert hiding[..1] == [p];
      assert LastByKey(hiding)[key] == hiding[1];
    }
  }

  // -------------------------------------------------------------------- orders

  /** The order of strings: a proper prefix comes first, and otherwise the first place where
      they differ decides. */
  lemma {:induction false} BeforeMeans(a: string, b: string)
    ensures Before(a, b) <==>
      || (a < b)
      || exists k :: 0 <= k < |a| && k < |b| && a[..k] == b[..k] && a[k] < b[k]
    decreases |a|
  {
    if a != [] && b != [] {
      if a[0] == b[0] {
        BeforeMeans(a[1..], b[1..]);
        TailsCompare(a, b);
      } else if a[0] < b[0] {
        assert a[..0] == b[..0];
      }
    }
  }

  lemma TailsCompare(a: string, b: string)
    requires a != [] && b != [] && a[0] == b[0]
    ensures a < b <==> a[1..] < b[1..]
    ensures (exists k :: 0 <= k < |a| && k < |b| && a[..k] == b[..k] && a[k] < b[k])
       <==> exists k :: 0 <= k < |a[1..]| && k < |b[1..]| && a[1..][..k] == b[1..][..k] && a[1..][k] < b[1..][k]
  {
    var s, t := a[1..], b[1..];
    assert a == [a[0]] + s && b == [b[0]] + t;
    if k :| 0 <= k < |a| && k < |b| && a[..k] == b[..k] && a[k] < b[k] {
      assert k > 0 && a[..k] == [a[0]] + s[..k - 1] && b[..k] == [b[0]] + t[..k - 1];
      assert s[..k - 1] == a[..k][1..] && t[..k - 1] == b[..k][1..];
      assert s[k - 1] < t[k - 1];
    }
    if k :| 0 <= k < |s| && k < |t| && s[..k] == t[..k] && s[k] < t[k] {
      assert a[..k + 1] == [a[0]] + s[..k] && b[..k + 1] == [b[0]] + t[..k];
      assert a[k + 1] < b[k + 1];
    }
  }

  lemma JoinedLast(first: seq<Access>, second: seq<Access>)
    requires second != []
    ensures var both, n := first + second, |second| - 1;
      both != [] && both[..|both| - 1] == first + second[..n] && both[|both| - 1] == second[n]
  {
  }

  /** Merging keeps the order in which the accesses were listed first. */
  lemma {:induction false} DedupedKeepsOrder(first: seq<Access>, second: seq<Access>)
    ensures Deduped(first) <= Deduped(first + second)
    decreases |second|
  {
    if second == [] {
      assert first + second == first;
    } else {
      DedupedKeepsOrder(first, second[..|second| - 1]);
      JoinedLast(first, second);
    }
  }

  /** In a union the accesses listed so far stay in front of those that a further permission
      of the key brings. */
  lemma UnionKeepsOrder(source: seq<Permission>, target: seq<Permission>, p: Permission)
    requires p.key in UnionMap(source, target)
    ensures p.key in UnionMap(source, target + [p])
    ensures Deduped(UnionMap(source, target)[p.key].access) <= UnionMap(source, target + [p])[p.key].access
  {
    var longer := target + [p];
    assert longer[..|longer| - 1] == target;
    DedupedKeepsOrder(UnionMap(source, target)[p.key].access, p.access);
  }

  /** What an intersection grants under a key stands in the order of the target's last
      permission. */
  lemma {:induction false} SharedFollowsTarget(source: seq<Access>, target: seq<Access>, i: nat, j: nat) returns (a: nat, b: nat)
    requires i < j < |Common(source, target)|
    ensures a < b < |target| && target[a] == Common(source, target)[i] && target[b] == Common(source, target)[j]
    decreases |target|
  {
    var n := |target| - 1;
    var front := Common(source, target[..n]);
    if j < |front| {
      a, b := SharedFollowsTarget(source, target[..n], i, j);
    } else {
      assert front[i] in target[..n];
      a :| 0 <= a < n && target[..n][a] == front[i];
      b := n;
    }
  }

  lemma SharedIsTargetsOrder(source: seq<Permission>, target: seq<Permission>, key: Key, i: nat, j: nat) returns (a: nat, b: nat)
    requires i < j < |Shared(source, target, key)|
    ensures key in LastByKey(target)
    ensures var listed := LastByKey(target)[key].access;
      a < b < |listed| && listed[a] == Shared(source, target, key)[i] && listed[b] == Shared(source, target, key)[j]
  {
    a, b := SharedFollowsTarget(LastByKey(source)[key].access, LastByKey(target)[key].access, i, j);
  }

  /** And intersecting keeps the target's order. */
  lemma {:induction false} CommonKeepsOrder(source: seq<Access>, first: seq<Access>, second: seq<Access>)
    ensures Common(source, first + second) == Common(source, first) + Common(source, second)
    decreases |second|
  {
    if second == [] {
      assert first + second == first;
      assert Common(source, first) + [] == Common(source, first);
    } else {
      var n := |second| - 1;
      CommonKeepsOrder(source, first, second[..n]);
      JoinedLast(first, second);
      Regrouped(Common(source, first), Common(source, second[..n]), if second[n] in source then [second[n]] else []);
    }
  }
}
