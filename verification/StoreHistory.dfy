/** When a store has its root, over whole histories of operations. */
module StoreHistory {
  import opened Basics
  import opened CertScope
  import opened CertTrust
  import opened CertStore
  import opened KeyGraph
  import opened TrustOrder

  /** What can be done to a store. The text of a certificate may not parse. */
  datatype Operation = Add(parsed: Option<Parsed>) | Revoke(id: KeyId) | Check | Reset

  /** The certificates and revocations after an operation. */
  function After(rootId: KeyId, rootKey: PublicKey, keys: Keys, op: Operation): Keys
  {
    match op
    case Add(None) => WithRootKey(rootId, rootKey, keys)
    case Add(Some(p)) =>
      var start := WithRootKey(rootId, rootKey, keys);
      if Collides(start, p) then start else start[p.id := Extended(start, p.id, p.publicKey, p.cert)]
    case Revoke(id) => keys[id := if id in keys then keys[id].(trust := Revoked) else RevokedKey()]
    case Check => WithRootKey(rootId, rootKey, keys)
    case Reset => map[]
  }

  function AfterAll(rootId: KeyId, rootKey: PublicKey, ops: seq<Operation>): Keys
    decreases |ops|
  {
    if ops == [] then map[] else After(rootId, rootKey, AfterAll(rootId, rootKey, ops[..|ops| - 1]), ops[|ops| - 1])
  }

  /** The operations since the last reset. */
  function SinceReset(ops: seq<Operation>): (recent: seq<Operation>)
    ensures Reset !in recent
    decreases |ops|
  {
    if ops == [] || ops[|ops| - 1].Reset? then [] else SinceReset(ops[..|ops| - 1]) + [ops[|ops| - 1]]
  }

  /** The first operation since the last reset was not a revocation, and the root was not revoked
      since then. */
  predicate RootSurvives(rootId: KeyId, ops: seq<Operation>)
  {
    var recent := SinceReset(ops);
    recent != [] && !recent[0].Revoke? && Revoke(rootId) !in recent
  }

  ghost predicate Rootless(keys: Keys) { forall id :: id in keys ==> !keys[id].trust.Hardcoded? }

  /** The root's entry is there, hardcoded or revoked, and no other key is hardcoded. */
  ghost predicate Rooted(rootId: KeyId, keys: Keys)
  {
    && rootId in keys && keys[rootId].trust.IsTerminal()
    && forall id :: id in keys && keys[id].trust.Hardcoded? ==> id == rootId
  }

  /** What the operations since the last reset say about the root. */
  lemma {:induction false} RootIsThere(rootId: KeyId, rootKey: PublicKey, ops: seq<Operation>)
    ensures var keys, recent := AfterAll(rootId, rootKey, ops), SinceReset(ops);
            && (recent == [] <==> keys == map[])
            && (recent != [] && recent[0].Revoke? ==> Rootless(keys))
            && (recent != [] && !recent[0].Revoke? ==>
                  Rooted(rootId, keys) && (keys[rootId].trust.Hardcoded? <==> Revoke(rootId) !in recent))
    decreases |ops|
  {
    if ops != [] {
      var n := |ops| - 1;
      RootIsThere(rootId, rootKey, ops[..n]);
      hide AfterAll;
      var keys := AfterAll(rootId, rootKey, ops[..n]);
      LastOperation(rootId, rootKey, ops);
      if !ops[n].Reset? {
        OperationKeepsRoot(rootId, rootKey, keys, ops[n]);
        var recent := SinceReset(ops[..n]);
        assert recent != [] ==> (recent + [ops[n]])[0] == recent[0];
      }
    }
  }

  lemma {:induction false} LastOperation(rootId: KeyId, rootKey: PublicKey, ops: seq<Operation>)
    requires ops != []
    ensures AfterAll(rootId, rootKey, ops) == After(rootId, rootKey, AfterAll(rootId, rootKey, ops[..|ops| - 1]), ops[|ops| - 1])
  {}

  lemma {:induction false} OperationKeepsRoot(rootId: KeyId, rootKey: PublicKey, keys: Keys, op: Operation)
    requires !op.Reset?
    ensures var next := After(rootId, rootKey, keys, op);
            && next != map[]
            && (keys == map[] && op.Revoke? ==> Rootless(next))
            && (keys == map[] && !op.Revoke? ==> Rooted(rootId, next) && next[rootId].trust.Hardcoded?)
            && (keys != map[] && Rootless(keys) ==> Rootless(next))
            && (keys != map[] && Rooted(rootId, keys) ==>
                  && Rooted(rootId, next)
                  && (next[rootId].trust.Hardcoded? <==> keys[rootId].trust.Hardcoded? && op != Revoke(rootId)))
  {
    hide WithCert;
    var next := After(rootId, rootKey, keys, op);
    assert op.Revoke? ==> op.id in next;
    assert op.Add? && op.parsed.Some? && !Collides(WithRootKey(rootId, rootKey, keys), op.parsed.value) ==>
             op.parsed.value.id in next;
    assert keys == map[] && !op.Revoke? ==> rootId in next;
  }

  // --- What the entries of the store are -------------------------------------------------

  /** The first public key that was added under an identifier. */
  function FirstKey(recent: seq<Operation>, id: KeyId): Option<PublicKey>
    decreases |recent|
  {
    if recent == [] then None
    else
      var before, last := FirstKey(recent[..|recent| - 1], id), recent[|recent| - 1];
      if before.Some? then before
      else if last.Add? && last.parsed.Some? && last.parsed.value.id == id then Some(last.parsed.value.publicKey)
      else None
  }

  /** The public key of an identifier: the root's if the root is there, or the first that was added. */
  function KeyFor(rootId: KeyId, rootKey: PublicKey, recent: seq<Operation>, id: KeyId): Option<PublicKey>
  {
    if id == rootId && recent != [] && !recent[0].Revoke? then Some(rootKey) else FirstKey(recent, id)
  }

  /** The certificates that were added for a public key, in order. */
  function Added(recent: seq<Operation>, id: KeyId, publicKey: Option<PublicKey>): seq<Cert>
    decreases |recent|
  {
    if recent == [] then []
    else
      var before, last := Added(recent[..|recent| - 1], id, publicKey), recent[|recent| - 1];
      if last.Add? && last.parsed.Some? && last.parsed.value.id == id && publicKey == Some(last.parsed.value.publicKey)
      then before + [last.parsed.value.cert]
      else before
  }

  /** Of the added certificates, those are kept whose signature none before them has. */
  ghost predicate Firsts(certs: seq<Cert>, added: seq<Cert>)
  {
    && (forall i, j :: 0 <= i < j < |certs| ==> certs[i].signature != certs[j].signature)
    && (forall c :: c in certs ==>
          exists i :: 0 <= i < |added| && added[i] == c && forall j :: 0 <= j < i ==> added[j].signature != c.signature)
    && (forall a :: a in added ==> exists c :: c in certs && c.signature == a.signature)
  }

  /** What the entry of an identifier is, and whether there is one. */
  ghost predicate Describes(rootId: KeyId, rootKey: PublicKey, recent: seq<Operation>, keys: Keys, id: KeyId)
  {
    && (id in keys <==> Revoke(id) in recent || KeyFor(rootId, rootKey, recent, id).Some?)
    && (id in keys ==>
          && keys[id].publicKey == KeyFor(rootId, rootKey, recent, id)
          && (keys[id].trust.Revoked? <==> Revoke(id) in recent)
          && Firsts(keys[id].certs, Added(recent, id, keys[id].publicKey)))
  }

  lemma {:induction false} FirstsMore(certs: seq<Cert>, added: seq<Cert>, c: Cert)
    requires Firsts(certs, added)
    ensures Firsts(WithCert(certs, c), added + [c])
  {
    var more, all := WithCert(certs, c), added + [c];
    forall d | d in more
      ensures exists i :: 0 <= i < |all| && all[i] == d && forall j :: 0 <= j < i ==> all[j].signature != d.signature
    {
      if d in certs {
        var i :| 0 <= i < |added| && added[i] == d && forall j :: 0 <= j < i ==> added[j].signature != d.signature;
        assert all[i] == d;
      } else {
        assert all[|added|] == d;
      }
    }
    forall a | a in all
      ensures exists d :: d in more && d.signature == a.signature
    {
      if a in added {
        var d :| d in certs && d.signature == a.signature;
        assert d in more;
      } else if more != certs {
        assert more[|certs|] == a;
      } else {
        var j :| 0 <= j < |certs| && certs[j].signature == c.signature;
        assert certs[j] in more;
      }
    }
  }

  lemma {:induction false} RecentMore(rootId: KeyId, rootKey: PublicKey, recent: seq<Operation>, op: Operation, id: KeyId)
    requires recent != []
    ensures KeyFor(rootId, rootKey, recent + [op], id) ==
              if KeyFor(rootId, rootKey, recent, id).Some? then KeyFor(rootId, rootKey, recent, id)
              else if op.Add? && op.parsed.Some? && op.parsed.value.id == id then Some(op.parsed.value.publicKey) else None
    ensures forall k :: Added(recent + [op], id, k) ==
              Added(recent, id, k) + if op.Add? && op.parsed.Some? && op.parsed.value.id == id && k == Some(op.parsed.value.publicKey)
                                     then [op.parsed.value.cert] else []
    ensures Revoke(id) in recent + [op] <==> Revoke(id) in recent || op == Revoke(id)
  {
    var all := recent + [op];
    assert all[..|all| - 1] == recent && all[0] == recent[0];
    forall k
      ensures Added(recent, id, k) + [] == Added(recent, id, k)
    {}
  }

  lemma {:induction false} NoneAdded(recent: seq<Operation>, id: KeyId)
    ensures Added(recent, id, None) == []
    decreases |recent|
  {
    if recent != [] {
      NoneAdded(recent[..|recent| - 1], id);
    }
  }

  /** Nothing was added under a public key before the first one. */
  lemma {:induction false} NothingBefore(recent: seq<Operation>, id: KeyId, k: Option<PublicKey>)
    requires FirstKey(recent, id).None?
    ensures Added(recent, id, k) == []
    decreases |recent|
  {
    if recent != [] {
      NothingBefore(recent[..|recent| - 1], id, k);
    }
  }

  lemma {:induction false} StepDescribes(rootId: KeyId, rootKey: PublicKey, recent: seq<Operation>, keys: Keys,
                                         op: Operation, id: KeyId)
    requires recent != [] && keys != map[] && !op.Reset? && Describes(rootId, rootKey, recent, keys, id)
    ensures Describes(rootId, rootKey, recent + [op], After(rootId, rootKey, keys, op), id)
  {
    hide Firsts, WithCert, KeyFor, Added;
    if op.Add? && op.parsed.Some? && op.parsed.value.id == id {
      AddDescribes(rootId, rootKey, recent, keys, op.parsed.value);
    } else {
      RecentMore(rootId, rootKey, recent, op, id);
      NothingYet(rootId, rootKey, recent, id);
      NoFirsts();
      if id in keys {
        assert Added(recent, id, keys[id].publicKey) + [] == Added(recent, id, keys[id].publicKey);
      }
    }
  }

  lemma {:induction false} AddDescribes(rootId: KeyId, rootKey: PublicKey, recent: seq<Operation>, keys: Keys, p: Parsed)
    requires recent != [] && keys != map[] && Describes(rootId, rootKey, recent, keys, p.id)
    ensures Describes(rootId, rootKey, recent + [Add(Some(p))], After(rootId, rootKey, keys, Add(Some(p))), p.id)
  {
    hide Firsts, WithCert, KeyFor, Added;
    RecentMore(rootId, rootKey, recent, Add(Some(p)), p.id);
    NothingYet(rootId, rootKey, recent, p.id);
    if p.id in keys && Collides(keys, p) {
      assert Added(recent, p.id, keys[p.id].publicKey) + [] == Added(recent, p.id, keys[p.id].publicKey);
    } else if p.id in keys {
      FirstsMore(keys[p.id].certs, Added(recent, p.id, Some(p.publicKey)), p.cert);
    } else {
      NoFirsts();
      FirstsMore([], [], p.cert);
      OnlyCert(p.cert);
    }
  }

  lemma {:induction false} NothingYet(rootId: KeyId, rootKey: PublicKey, recent: seq<Operation>, id: KeyId)
    ensures KeyFor(rootId, rootKey, recent, id).None? ==> forall k :: Added(recent, id, k) == []
    ensures Added(recent, id, None) == []
  {
    NoneAdded(recent, id);
    if KeyFor(rootId, rootKey, recent, id).None? {
      forall k
        ensures Added(recent, id, k) == []
      {
        NothingBefore(recent, id, k);
      }
    }
  }

  lemma NoFirsts()
    ensures Firsts([], [])
  {}

  lemma OnlyCert(c: Cert)
    ensures WithCert([], c) == [c] && [] + [c] == [c]
  {}

  lemma {:induction false} FirstDescribes(rootId: KeyId, rootKey: PublicKey, op: Operation, id: KeyId)
    requires !op.Reset?
    ensures Describes(rootId, rootKey, [op], After(rootId, rootKey, map[], op), id)
  {
    OneOperation(op, id);
    NoFirsts();
    if op.Add? && op.parsed.Some? {
      FirstsMore([], [], op.parsed.value.cert);
      OnlyCert(op.parsed.value.cert);
    }
    hide Firsts, WithCert, Added, FirstKey;
    assert Revoke(id) in [op] <==> op == Revoke(id);
  }

  lemma {:induction false} OneOperation(op: Operation, id: KeyId)
    ensures FirstKey([op], id) ==
              if op.Add? && op.parsed.Some? && op.parsed.value.id == id then Some(op.parsed.value.publicKey) else None
    ensures forall k :: Added([op], id, k) ==
              if op.Add? && op.parsed.Some? && op.parsed.value.id == id && k == Some(op.parsed.value.publicKey)
              then [op.parsed.value.cert] else []
  {
    assert [op][..0] == [];
    assert FirstKey([], id) == None;
    forall k
      ensures Added([op][..0], id, k) == []
    {}
  }

  /** In every history, for every identifier: it has an entry if and only if it was revoked or has a public
      key, since the last reset; the entry is revoked if and only if it was revoked; its public key is
      the root's or the first that was added; and it has exactly the certificates that were added for
      that key, without those whose signature was there before. */
  lemma {:induction false} EntriesAre(rootId: KeyId, rootKey: PublicKey, ops: seq<Operation>, id: KeyId)
    ensures Describes(rootId, rootKey, SinceReset(ops), AfterAll(rootId, rootKey, ops), id)
    decreases |ops|
  {
    if ops == [] {
    } else {
      var n := |ops| - 1;
      EntriesAre(rootId, rootKey, ops[..n], id);
      RootIsThere(rootId, rootKey, ops[..n]);
      LastOperation(rootId, rootKey, ops);
      hide AfterAll, Describes, After;
      if ops[n].Reset? {
        ResetDescribes(rootId, rootKey, id);
      } else if SinceReset(ops[..n]) == [] {
        FirstDescribes(rootId, rootKey, ops[n], id);
        assert [] + [ops[n]] == [ops[n]];
      } else {
        StepDescribes(rootId, rootKey, SinceReset(ops[..n]), AfterAll(rootId, rootKey, ops[..n]), ops[n], id);
      }
    }
  }

  lemma ResetDescribes(rootId: KeyId, rootKey: PublicKey, id: KeyId)
    ensures Describes(rootId, rootKey, [], After(rootId, rootKey, map[], Reset), id)
    ensures forall keys :: After(rootId, rootKey, keys, Reset) == map[]
  {}

  // --- When anything is trusted ---------------------------------------------------------

  /** In every history that ends with a check: some key is trusted if and only if the first operation
      since the last reset was not a revocation and the root was not revoked since then. */
  lemma {:induction false} TrustIff(rootId: KeyId, rootKey: PublicKey, ops: seq<Operation>,
                                    keys: Keys, verify: Verifier, rank: Rank)
    requires SameInput(AfterAll(rootId, rootKey, ops + [Check]), keys) && KeysOk(keys) && Evaluated(keys, verify, rank)
    ensures (exists id :: id in keys && keys[id].trust.IsTrusted()) <==> RootSurvives(rootId, ops + [Check])
  {
    hide AfterAll, Evaluated, KeysOk;
    var all := ops + [Check];
    var input := AfterAll(rootId, rootKey, all);
    RootIsThere(rootId, rootKey, all);
    TrustNeedsRoot(keys, verify, rank);
    assert SinceReset(all) != [];
    if RootSurvives(rootId, all) {
      assert input[rootId].trust.Hardcoded? && keys[rootId].trust.Hardcoded?;
    } else {
      forall id | id in keys
        ensures !keys[id].trust.Hardcoded?
      {
        assert input[id].trust.Hardcoded? == keys[id].trust.Hardcoded?;
      }
    }
  }

  /** In particular, a store whose first operation is a revocation never trusts anything, whatever is
      done to it before it is reset. */
  lemma {:induction false} RevokedFirstTrustsNothing(rootId: KeyId, rootKey: PublicKey, revoked: KeyId, more: seq<Operation>,
                                                     keys: Keys, verify: Verifier, rank: Rank)
    requires Reset !in more
    requires SameInput(AfterAll(rootId, rootKey, [Revoke(revoked)] + more + [Check]), keys)
    requires KeysOk(keys) && Evaluated(keys, verify, rank)
    ensures forall id :: id in keys ==> !keys[id].trust.IsTrusted()
  {
    hide AfterAll, Evaluated, KeysOk;
    var ops := [Revoke(revoked)] + more;
    WithoutReset(ops + [Check]);
    TrustIff(rootId, rootKey, ops, keys, verify, rank);
    assert (ops + [Check])[0] == Revoke(revoked);
  }

  lemma {:induction false} WithoutReset(ops: seq<Operation>)
    requires Reset !in ops
    ensures SinceReset(ops) == ops
    decreases |ops|
  {
    if ops != [] {
      var n := |ops| - 1;
      WithoutReset(ops[..n]);
      assert ops == ops[..n] + [ops[n]];
    }
  }

  // --- The store does the same ----------------------------------------------------------

  /** Operations read nothing but certificates and revocations. */
  lemma {:induction false} SameAfter(rootId: KeyId, rootKey: PublicKey, a: Keys, b: Keys, op: Operation)
    requires SameInput(a, b)
    ensures SameInput(After(rootId, rootKey, a, op), After(rootId, rootKey, b, op))
  {
    assert a == map[] <==> b == map[] by {
      assert a.Keys == b.Keys;
      assert a == map[] <==> a.Keys == {};
    }
    hide WithCert;
  }

  /** Carries out one operation on a store. A check may be of a signature or of a key. */
  method Perform(store: Store, op: Operation, order: seq<KeyId>)
    requires store.Valid() && Covers(order, store.Initialized())
    requires op.Add? && op.parsed.Some? ==> Usable(op.parsed.value.cert.scope)
    modifies store
    ensures store.Valid() && (op.Check? ==> store.trustValid)
    ensures SameInput(After(store.rootId, store.rootKey, old(store.keys), op), store.keys)
  {
    hide KeysOk, EvaluatedInOrder, WithCert;
    match op
    case Add(parsed) => var _ := store.AddCert(parsed);
    case Revoke(id) => store.AddKeyRevocation(id);
    case Check => store.EnsureTrustValid(order);
    case Reset => store.Reset();
  }

  /** Carries out a history of operations on an empty store that ends with a check. */
  method PerformAll(store: Store, ops: seq<Operation>)
    requires store.Valid() && store.keys == map[]
    requires forall op :: op in ops && op.Add? && op.parsed.Some? ==> Usable(op.parsed.value.cert.scope)
    modifies store
    ensures store.Valid() && store.trustValid
    ensures (exists id :: id in store.keys && store.keys[id].trust.IsTrusted()) <==> RootSurvives(store.rootId, ops + [Check])
  {
    hide KeysOk, EvaluatedInOrder, WithCert, RootSurvives, After;
    var all := ops + [Check];
    for i := 0 to |all|
      invariant store.Valid() && (i == |all| ==> store.trustValid)
      invariant SameInput(AfterAll(store.rootId, store.rootKey, all[..i]), store.keys)
    {
      ghost var before := store.keys;
      var order := SomeOrderOf(WithRootKey(store.rootId, store.rootKey, store.keys).Keys);
      Perform(store, all[i], order);
      assert all[..i + 1][..i] == all[..i] && all[..i + 1][i] == all[i];
      LastOperation(store.rootId, store.rootKey, all[..i + 1]);
      SameAfter(store.rootId, store.rootKey, AfterAll(store.rootId, store.rootKey, all[..i]), before, all[i]);
      SameInputChain(AfterAll(store.rootId, store.rootKey, all[..i + 1]),
                     After(store.rootId, store.rootKey, before, all[i]), store.keys);
    }
    assert all[..|all|] == all;
    ValidIsEvaluated(store);
    TrustIff(store.rootId, store.rootKey, ops, store.keys, store.verify,
             RankOf(VisitAll(SignedBy(store.keys), [], store.order)));
  }

  lemma {:induction false} ValidIsEvaluated(store: Store)
    requires store.Valid() && store.trustValid
    ensures KeysOk(store.keys) && Evaluated(store.keys, store.verify, RankOf(VisitAll(SignedBy(store.keys), [], store.order)))
  {
    hide Evaluated, RankOf, VisitAll, KeysOk;
  }

  method SomeOrderOf(ids: set<KeyId>) returns (order: seq<KeyId>)
    ensures Lists(order, ids)
  {
    order := [];
    var rest := ids;
    while rest != {}
      invariant rest <= ids && Distinct(order) && forall id :: id in order <==> id in ids && id !in rest
      decreases |rest|
    {
      HasMember(rest);
      var id :| id in rest;
      order := order + [id];
      rest := rest - {id};
    }
  }

  lemma HasMember(s: set<KeyId>)
    ensures s == {} || exists id :: id in s
  {
    if forall id :: id !in s {
      assert s == {};
    }
  }
}
