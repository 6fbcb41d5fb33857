/** The rights a certificate grants: lists of items, and an expiry time. */
module CertScope {
  import opened Basics

  /** The item that stands for "all items" when it is the only one of a list. */
  const INVALID_ITEM: int := 0xFFFF_FFFF

  const TIME_MAX: int := 0x7FFF_FFFF_FFFF_FFFF

  type Items = seq<int>

  predicate All(s: Items) { s == [INVALID_ITEM] }

  predicate Sorted(s: Items)
  {
    forall i, j :: 0 <= i < j < |s| ==> s[i] <= s[j]
  }

  /** Sorted, and the special item only occurs alone. Duplicates are possible. */
  predicate WellFormed(s: Items)
  {
    Sorted(s) && (INVALID_ITEM in s ==> All(s))
  }

  /** Whether the list authorizes an item. */
  predicate Has(s: Items, x: int)
  {
    All(s) || x in s
  }

  /** The common items of two lists that are both explicit. */
  function Common(a: Items, b: Items): Items
  {
    if a == [] || b == [] then []
    else if a[0] < b[0] then Common(a[1..], b)
    else if b[0] < a[0] then Common(a, b[1..])
    else [a[0]] + Common(a[1..], b[1..])
  }

  function Intersection(a: Items, b: Items): Items
  {
    if All(a) then b else if All(b) then a else Common(a, b)
  }

  lemma {:induction false} CommonIsMeet(a: Items, b: Items)
    requires Sorted(a) && Sorted(b)
    ensures forall x :: x in Common(a, b) <==> x in a && x in b
    ensures Sorted(Common(a, b))
    decreases |a| + |b|
  {
    if a == [] || b == [] {
    } else if a[0] < b[0] {
      CommonIsMeet(a[1..], b);
      assert a == [a[0]] + a[1..];
      assert a[0] !in b;
    } else if b[0] < a[0] {
      CommonIsMeet(a, b[1..]);
      assert b == [b[0]] + b[1..];
      assert b[0] !in a;
    } else {
      CommonIsMeet(a[1..], b[1..]);
      var r := Common(a[1..], b[1..]);
      assert a == [a[0]] + a[1..] && b == [b[0]] + b[1..];
      forall j | 0 <= j < |r| ensures a[0] <= r[j] {
        assert r[j] in r && r[j] in a;
      }
    }
  }

  /** The intersection authorizes exactly the items that both lists authorize. */
  lemma {:induction false} IntersectionIsMeet(a: Items, b: Items)
    requires WellFormed(a) && WellFormed(b)
    ensures WellFormed(Intersection(a, b))
    ensures forall x :: x != INVALID_ITEM ==> (Has(Intersection(a, b), x) <==> Has(a, x) && Has(b, x))
    ensures All(Intersection(a, b)) <==> All(a) && All(b)
    ensures var r, any := Intersection(a, b), [0xFFFF_FFFF];
            && (r == any <==> a == any && b == any)
            && (a == any ==> r == b) && (b == any ==> r == a)
            && (a != any && b != any ==> forall x :: x in r <==> x in a && x in b)
  {
    if !All(a) && !All(b) {
      CommonIsMeet(a, b);
      var r := Common(a, b);
      assert INVALID_ITEM !in r;
      assert r != [] ==> r[0] in r;
    }
  }

  /** Two lists with the same authority. */
  ghost predicate SameAuthority(a: Items, b: Items)
  {
    All(a) == All(b) && forall x :: x != INVALID_ITEM ==> Has(a, x) == Has(b, x)
  }

  lemma {:induction false} ListLaws(a: Items, b: Items, c: Items)
    requires WellFormed(a) && WellFormed(b) && WellFormed(c)
    ensures SameAuthority(Intersection(a, b), Intersection(b, a))
    ensures SameAuthority(Intersection(Intersection(a, b), c), Intersection(a, Intersection(b, c)))
    ensures SameAuthority(Intersection(a, a), a)
    ensures WellFormed(Intersection(a, b))
  {
    IntersectionIsMeet(a, b);
    IntersectionIsMeet(b, a);
    IntersectionIsMeet(b, c);
    IntersectionIsMeet(a, a);
    IntersectionIsMeet(Intersection(a, b), c);
    IntersectionIsMeet(a, Intersection(b, c));
  }

  class CertAuthParameter {
    var items: Items

    constructor ()
      ensures items == []
    {
      items := [];
    }

    predicate IsEmpty() reads this { |items| == 0 }

    predicate IsAll() reads this { |items| == 1 && items[0] == INVALID_ITEM }

    method SetEmpty()
      modifies this
      ensures IsEmpty() && forall x :: !Has(items, x)
    {
      items := [];
    }

    method SetAll()
      modifies this
      ensures IsAll() && WellFormed(items) && forall x :: Has(items, x)
    {
      items := [INVALID_ITEM];
    }

    /** Binary search, as std::binary_search over the sorted list. */
    method HasItem(x: int) returns (has: bool)
      requires WellFormed(items) && x != INVALID_ITEM
      ensures has <==> items == [0xFFFF_FFFF] || x in items
    {
      if IsAll() {
        return true;
      }
      var lo, hi := 0, |items|;
      while lo < hi
        invariant 0 <= lo <= hi <= |items|
        invariant forall k :: 0 <= k < lo ==> items[k] < x
        invariant forall k :: hi <= k < |items| ==> x <= items[k]
      {
        var mid := (lo + hi) / 2;
        if items[mid] < x {
          lo := mid + 1;
        } else {
          hi := mid;
        }
      }
      has := lo < |items| && items[lo] <= x;
    }

    /** Keeps the items that both lists authorize, scanning them in parallel. */
    method SetIntersection(a: CertAuthParameter, b: CertAuthParameter)
      requires this != a && this != b
      requires WellFormed(a.items) && WellFormed(b.items)
      requires !a.IsEmpty() && !b.IsEmpty()
      modifies this
      ensures items == Intersection(a.items, b.items)
      ensures WellFormed(items)
      ensures forall x :: x != INVALID_ITEM ==> (Has(items, x) <==> Has(a.items, x) && Has(b.items, x))
    {
      IntersectionIsMeet(a.items, b.items);
      if a.IsAll() {
        items := b.items;
        return;
      }
      if b.IsAll() {
        items := a.items;
        return;
      }
      items := [];
      var ita, itb := 0, 0;
      while true
        invariant 0 <= ita < |a.items| && 0 <= itb < |b.items|
        invariant a.items == old(a.items) && b.items == old(b.items)
        invariant items + Common(a.items[ita..], b.items[itb..]) == Common(a.items, b.items)
        decreases |a.items| - ita + |b.items| - itb
      {
        var va, vb := a.items[ita], b.items[itb];
        assert a.items[ita..][1..] == a.items[ita + 1..];
        assert b.items[itb..][1..] == b.items[itb + 1..];
        if va < vb {
          ita := ita + 1;
          if ita == |a.items| {
            break;
          }
        } else if vb < va {
          itb := itb + 1;
          if itb == |b.items| {
            break;
          }
        } else {
          items := items + [va];
          ita := ita + 1;
          if ita == |a.items| {
            break;
          }
          itb := itb + 1;
          if itb == |b.items| {
            break;
          }
        }
      }
    }
  }

  /** What a certificate, or a whole chain of them, is allowed to grant, and until when. */
  datatype Scope = Scope(pops: Items, apps: Items, expiry: int)

  const EVERYTHING := Scope([INVALID_ITEM], [INVALID_ITEM], TIME_MAX)
  const NOTHING := Scope([], [], 0)

  /** Something is granted, as long as it has not expired. */
  predicate Granting(s: Scope)
  {
    WellFormed(s.pops) && WellFormed(s.apps) && s.pops != [] && s.apps != []
  }

  /** The scopes of certificates and trusted keys; the scopes that are not empty. */
  predicate Usable(s: Scope)
  {
    Granting(s) && s.expiry > 0
  }

  function Granted(signer: Scope, cert: Scope): Scope
  {
    Scope(Intersection(signer.pops, cert.pops), Intersection(signer.apps, cert.apps), Min(signer.expiry, cert.expiry))
  }

  /** Two scopes that grant the same rights for the same time. */
  ghost predicate SameRights(a: Scope, b: Scope)
  {
    SameAuthority(a.pops, b.pops) && SameAuthority(a.apps, b.apps) && a.expiry == b.expiry
  }

  ghost predicate WellFormedScope(s: Scope) { WellFormed(s.pops) && WellFormed(s.apps) }

  /** In which order a chain of scopes is intersected, and how often, makes no difference. */
  lemma {:induction false} IntersectionLaws(a: Scope, b: Scope, c: Scope)
    requires WellFormedScope(a) && WellFormedScope(b) && WellFormedScope(c)
    ensures WellFormedScope(Granted(a, b))
    ensures SameRights(Granted(a, b), Granted(b, a))
    ensures SameRights(Granted(Granted(a, b), c), Granted(a, Granted(b, c)))
    ensures SameRights(Granted(a, a), a)
    ensures Granted(a, b).expiry == if a.expiry < b.expiry then a.expiry else b.expiry
  {
    ListLaws(a.pops, b.pops, c.pops);
    ListLaws(a.apps, b.apps, c.apps);
    hide SameAuthority, WellFormed, Intersection;
  }

  class CertAuthScope {
    const pops: CertAuthParameter
    const apps: CertAuthParameter
    var timeExpiry: int

    ghost predicate Valid()
      reads this, pops, apps
    {
      pops != apps && WellFormed(pops.items) && WellFormed(apps.items)
    }

    function Value(): Scope
      reads this, pops, apps
    {
      Scope(pops.items, apps.items, timeExpiry)
    }

    constructor (s: Scope)
      requires WellFormed(s.pops) && WellFormed(s.apps)
      ensures Valid() && Value() == s && fresh(pops) && fresh(apps)
    {
      pops := new CertAuthParameter();
      apps := new CertAuthParameter();
      timeExpiry := s.expiry;
      new;
      pops.items := s.pops;
      apps.items := s.apps;
    }

    method SetIntersection(a: CertAuthScope, b: CertAuthScope)
      requires Valid() && a.Valid() && b.Valid()
      requires pops !in {a.pops, a.apps, b.pops, b.apps} && apps !in {a.pops, a.apps, b.pops, b.apps}
      requires Granting(a.Value()) && Granting(b.Value())
      modifies this, pops, apps
      ensures Valid() && Value() == Granted(old(a.Value()), old(b.Value()))
    {
      pops.SetIntersection(a.pops, b.pops);
      apps.SetIntersection(a.apps, b.apps);
      timeExpiry := Min(a.timeExpiry, b.timeExpiry);
    }
  }
}
