/** What the order in which the keys are visited means for their trust. */
module TrustOrder {
  import opened Basics
  import opened CertScope
  import opened CertTrust
  import opened CertStore
  import opened KeyGraph

  // --- Evaluation from scratch ----------------------------------------------------------

  /** The keys before any evaluation. */
  function Cleared(keys: Keys): (k: Keys)
    ensures SameInput(keys, k)
  {
    map id | id in keys :: if keys[id].trust.IsTerminal() then keys[id] else keys[id].(trust := Unknown)
  }

  /** The newest of the first `i` certificates that confer trust on `id`, and the first of those. */
  function NewestOf(keys: Keys, verify: Verifier, id: KeyId, i: nat): (n: int)
    requires id in keys && i <= |keys[id].certs|
    ensures -1 <= n < i
  {
    if i == 0 then -1
    else
      var certs, n := keys[id].certs, NewestOf(keys, verify, id, i - 1);
      if Confers(keys, verify, id, certs[i - 1]) && (n < 0 || certs[n].created < certs[i - 1].created) then i - 1 else n
  }

  lemma {:induction false} NewestIsBest(keys: Keys, verify: Verifier, id: KeyId, i: nat)
    requires id in keys && i <= |keys[id].certs|
    ensures Best(keys[id].certs, c => Confers(keys, verify, id, c), i, NewestOf(keys, verify, id, i))
  {
    hide Confers;
    if i > 0 {
      NewestIsBest(keys, verify, id, i - 1);
      BestNext(keys[id].certs, c => Confers(keys, verify, id, c), i - 1,
               NewestOf(keys, verify, id, i - 1), NewestOf(keys, verify, id, i));
    }
  }

  /** Key `id` with the trust that the other keys give it. */
  function Judged(keys: Keys, verify: Verifier, id: KeyId): Key
    requires id in keys
  {
    var k := keys[id];
    var n := NewestOf(keys, verify, id, |k.certs|);
    if n < 0 || k.certs[n].caKeyId !in keys then k.(trust := NotTrusted, scope := NOTHING, newest := -1)
    else k.(trust := Trusted, scope := Granted(keys[k.certs[n].caKeyId].scope, k.certs[n].scope), newest := n)
  }

  lemma {:induction false} JudgedFollows(keys: Keys, verify: Verifier, id: KeyId)
    requires KeysOk(keys) && id in keys && !keys[id].trust.IsTerminal()
    ensures Follows(keys, Judged(keys, verify, id), c => Confers(keys, verify, id, c))
    ensures KeyOk(Judged(keys, verify, id))
  {
    var k := keys[id];
    NewestIsBest(keys, verify, id, |k.certs|);
    var n := NewestOf(keys, verify, id, |k.certs|);
    AllOk(keys, id);
    if n >= 0 {
      var c := k.certs[n];
      assert Confers(keys, verify, id, c);
      AllOk(keys, c.caKeyId);
      GrantedIsUsable(keys[c.caKeyId].scope, c.scope);
    }
    hide Confers, Granted, Usable;
  }

  /** The keys after they were judged one after the other, in the order in which they are finished. */
  function FromScratch(keys: Keys, verify: Verifier, done: seq<KeyId>): (k: Keys)
    decreases |done|
  {
    if done == [] then Cleared(keys)
    else
      var k, id := FromScratch(keys, verify, done[..|done| - 1]), done[|done| - 1];
      if id in k then k[id := Judged(k, verify, id)] else k
  }

  lemma {:induction false} JudgedKeepsInput(keys: Keys, verify: Verifier, id: KeyId)
    requires id in keys && !keys[id].trust.IsTerminal()
    ensures SameInput(keys, keys[id := Judged(keys, verify, id)])
    ensures Judged(keys, verify, id).certs == keys[id].certs && Judged(keys, verify, id).trust.IsEvaluated()
  {}

  lemma {:induction false} SameInputChain(a: Keys, b: Keys, c: Keys)
    requires SameInput(a, b) && SameInput(b, c)
    ensures SameInput(a, c)
  {}

  lemma {:induction false} ScratchIsPartial(keys: Keys, verify: Verifier, done: seq<KeyId>)
    requires KeysOk(keys) && Proper(SignedBy(keys), {}, done)
    ensures var k := FromScratch(keys, verify, done);
            KeysOk(k) && SameInput(keys, k) && NoneWorking(k) && Partial(k, verify, RankOf(done), |done|)
    decreases |done|
  {
    if done == [] {
      NothingFinished(Cleared(keys), verify);
      ClearedOk(keys);
    } else {
      var n := |done| - 1;
      var before, id := done[..n], done[n];
      assert done == before + [id];
      ScratchIsPartial(keys, verify, before);
      var k := FromScratch(keys, verify, before);
      hide FromScratch, RankOf, Settled, KeysOk, Judged;
      NotVisited(k, verify, before, id);
      assert id in done;
      assert id in k && k[id].trust.Unknown?;
      JudgedFollows(k, verify, id);
      JudgedKeepsInput(k, verify, id);
      SameInputChain(keys, k, k[id := Judged(k, verify, id)]);
      KeysOkUpdate(k, id, Judged(k, verify, id));
      FinishedChange(k, verify, RankOf(before), n, id, Judged(k, verify, id));
      RankMore(before, id);
      ScratchStep(keys, verify, done);
    }
  }

  lemma {:induction false} ScratchStep(keys: Keys, verify: Verifier, done: seq<KeyId>)
    requires done != [] && done[|done| - 1] in FromScratch(keys, verify, done[..|done| - 1])
    ensures var k, id := FromScratch(keys, verify, done[..|done| - 1]), done[|done| - 1];
            FromScratch(keys, verify, done) == k[id := Judged(k, verify, id)]
  {}

  lemma {:induction false} ClearedOk(keys: Keys)
    requires KeysOk(keys)
    ensures KeysOk(Cleared(keys)) && NoneWorking(Cleared(keys))
  {
    forall id | id in keys
      ensures KeyOk(Cleared(keys)[id])
    {
      AllOk(keys, id);
    }
  }

  /** Visiting all keys from scratch in some order. */
  function EvaluationOf(keys: Keys, verify: Verifier, order: seq<KeyId>): Keys
  {
    FromScratch(keys, verify, VisitAll(SignedBy(keys), [], order))
  }

  lemma {:induction false} EvaluationIs(keys: Keys, verify: Verifier, order: seq<KeyId>)
    requires KeysOk(keys) && Covers(order, keys)
    ensures var k := EvaluationOf(keys, verify, order);
            KeysOk(k) && SameInput(keys, k) && EvaluatedInOrder(k, verify, order)
  {
    hide RankOf, FromScratch, Settled;
    var g := SignedBy(keys);
    var done := VisitAll(g, [], order);
    VisitAllIsProper(g, [], order);
    ScratchIsPartial(keys, verify, done);
    var k := FromScratch(keys, verify, done);
    SameGraph(keys, k);
    forall id | id in k
      ensures k[id].trust.IsTerminal() || k[id].trust.IsEvaluated()
    {
      assert id in order;
      NotVisited(k, verify, done, id);
    }
  }

  /** Keys that were evaluated in some order are what the evaluation from scratch in that order
      gives, whatever circles there are. */
  lemma {:induction false} EvaluatedIsFromScratch(a: Keys, keys: Keys, verify: Verifier, order: seq<KeyId>, id: KeyId)
    requires KeysOk(a) && EvaluatedInOrder(a, verify, order)
    requires KeysOk(keys) && SameInput(a, keys) && Covers(order, a) && id in a
    ensures SameTrust(a, EvaluationOf(keys, verify, order), id)
  {
    hide EvaluationOf, RankOf, VisitAll;
    EvaluationIs(keys, verify, order);
    var b := EvaluationOf(keys, verify, order);
    SameGraph(a, keys);
    SameGraph(keys, b);
    SameInputChain(a, keys, b);
    hide Evaluated;
    SameOrderSameTrust(a, b, verify, RankOf(VisitAll(SignedBy(a), [], order)), id);
  }

  /** On every store: while the cached trust is valid, it is the trust that an evaluation from
      scratch gives, in the order in which the keys were visited, from nothing but the certificates
      and revocations. */
  lemma {:induction false} CacheIsCoherent(store: Store, input: Keys, id: KeyId)
    requires store.Valid() && store.trustValid && id in store.keys
    requires KeysOk(input) && SameInput(store.keys, input)
    ensures SameTrust(store.keys, EvaluationOf(input, store.verify, store.order), id)
  {
    hide EvaluatedInOrder, EvaluationOf;
    EvaluatedIsFromScratch(store.keys, input, store.verify, store.order, id);
  }

  // --- Where the order does not matter ---------------------------------------------------

  lemma {:induction false} AllOrdered(keys: Keys, verify: Verifier, order: seq<KeyId>, id: KeyId)
    requires KeysOk(keys) && EvaluatedInOrder(keys, verify, order) && Covers(order, keys)
    requires NoCirclesAmong(SignedBy(keys), AnchoredKeys(SignedBy(keys), HardcodedKeys(keys)))
    requires id in keys && !keys[id].trust.IsTerminal()
    ensures Ordered(keys, RankOf(VisitAll(SignedBy(keys), [], order)), id)
  {
    hide RankOf, NoCirclesAmong, Anchored, AnchoredKeys, Evaluated, VisitAll, KeysOk;
    var g := SignedBy(keys);
    forall c | c in keys[id].certs && c.caKeyId in keys && c.caKeyId != id && keys[c.caKeyId].trust.IsTrusted()
      ensures Before(keys, RankOf(VisitAll(g, [], order)), c.caKeyId, id)
    {
      if keys[c.caKeyId].trust.Trusted? {
        assert c.caKeyId in g[id];
        TrustedIsAnchored(keys, verify, RankOf(VisitAll(g, [], order)), c.caKeyId);
        assert c.caKeyId in order && id in order;
        LiveFirst(g, HardcodedKeys(keys), order, c.caKeyId, id);
      }
    }
  }

  /** An anchored signer is ranked before the keys that it signs. */
  lemma {:induction false} LiveFirst(g: Graph, roots: set<KeyId>, order: seq<KeyId>, s: KeyId, id: KeyId)
    requires NoCirclesAmong(g, AnchoredKeys(g, roots)) && forall k :: k in g ==> k in order
    requires id in g && s in g && s in g[id] && s != id && Anchored(g, roots, s)
    ensures var rank := RankOf(VisitAll(g, [], order)); s in rank && id in rank && rank[s] < rank[id]
  {
    hide RankOf, NoCirclesAmong, Anchored, VisitAll, Closed;
    var done := VisitAll(g, [], order);
    VisitAllIsProper(g, [], order);
    AnchoredIsClosed(g, roots);
    SignersFirstIff(g, AnchoredKeys(g, roots), order);
    RankIs(done);
    var i :| 0 <= i < |done| && done[i] == id;
    assert s in done[..i];
    var j :| 0 <= j < i && done[j] == s;
  }

  lemma {:induction false} AllExact(keys: Keys, verify: Verifier, order: seq<KeyId>, id: KeyId)
    requires KeysOk(keys) && EvaluatedInOrder(keys, verify, order) && Covers(order, keys)
    requires NoCirclesAmong(SignedBy(keys), AnchoredKeys(SignedBy(keys), HardcodedKeys(keys)))
    requires id in keys && !keys[id].trust.IsTerminal()
    ensures Exact(keys, verify, id)
  {
    hide RankOf, VisitAll, Ordered, NoCirclesAmong, AnchoredKeys;
    AllOrdered(keys, verify, order, id);
    OrderedIsExact(keys, verify, RankOf(VisitAll(SignedBy(keys), [], order)), id);
  }

  /** Where signatures do not run in circles among the keys that a hardcoded key vouches for, every
      evaluation of the same certificates and revocations gives the same trust, in whatever orders
      the keys were visited. */
  lemma {:induction false} OrderDoesNotMatter(a: Keys, b: Keys, verify: Verifier,
                                              orderA: seq<KeyId>, orderB: seq<KeyId>, id: KeyId)
    requires KeysOk(a) && EvaluatedInOrder(a, verify, orderA) && Covers(orderA, a)
    requires KeysOk(b) && EvaluatedInOrder(b, verify, orderB) && Covers(orderB, b)
    requires SameInput(a, b) && NoCirclesAmong(SignedBy(a), AnchoredKeys(SignedBy(a), HardcodedKeys(a))) && id in a
    ensures SameTrust(a, b, id)
  {
    hide RankOf, VisitAll, Exact, AnchoredKeys, KeysOk, Evaluated, Acyclic;
    SameGraph(a, b);
    SameHardcoded(a, b);
    forall i | i in a && !a[i].trust.IsTerminal()
      ensures Exact(a, verify, i) && Exact(b, verify, i)
    {
      assert !b[i].trust.IsTerminal();
      AllExact(a, verify, orderA, i);
      AllExact(b, verify, orderB, i);
    }
    var g := SignedBy(a);
    var depth: KeyId -> nat :| Acyclic(g, AnchoredKeys(g, HardcodedKeys(a)), depth);
    TrustIsDetermined(a, b, verify, RankOf(VisitAll(g, [], orderA)), RankOf(VisitAll(g, [], orderB)), depth, id);
  }

  lemma {:induction false} OrderDoesNotMatterFor(keys: Keys, verify: Verifier,
                                                 orderA: seq<KeyId>, orderB: seq<KeyId>, id: KeyId)
    requires KeysOk(keys) && NoCirclesAmong(SignedBy(keys), AnchoredKeys(SignedBy(keys), HardcodedKeys(keys)))
    requires Covers(orderA, keys) && Covers(orderB, keys) && id in keys
    ensures SameTrust(EvaluationOf(keys, verify, orderA), EvaluationOf(keys, verify, orderB), id)
  {
    hide EvaluationOf, NoCirclesAmong, AnchoredKeys, EvaluatedInOrder;
    EvaluationIs(keys, verify, orderA);
    EvaluationIs(keys, verify, orderB);
    var a, b := EvaluationOf(keys, verify, orderA), EvaluationOf(keys, verify, orderB);
    SameGraph(keys, a);
    SameHardcoded(keys, a);
    SameInputSwap(keys, a);
    SameInputChain(a, keys, b);
    OrderDoesNotMatter(a, b, verify, orderA, orderB, id);
  }

  lemma {:induction false} SameInputSwap(a: Keys, b: Keys)
    requires SameInput(a, b)
    ensures SameInput(b, a)
  {}

  // --- Where it does ---------------------------------------------------------------------

  const GENUINE: Bytes := [1]
  const FORGED: Bytes := [0]

  /** Only data that is marked as genuine is signed by anybody. */
  function OnlyGenuine(key: PublicKey, data: Bytes, signature: Bytes): bool { data == GENUINE }

  function CertBy(signer: KeyId, genuine: bool, n: nat): Cert
  {
    Cert(if genuine then GENUINE else FORGED, signer, seq(n, _ => 0), EVERYTHING, 0)
  }

  /** The chain leads from `signer` to `k`, or begins with `k` and `signer` is a root. */
  predicate OnPath(path: seq<KeyId>, roots: set<KeyId>, k: KeyId, signer: KeyId)
  {
    exists i :: 0 <= i < |path| && IsStep(path, roots, k, signer, i)
  }

  predicate IsStep(path: seq<KeyId>, roots: set<KeyId>, k: KeyId, signer: KeyId, i: nat)
    requires i < |path|
  {
    path[i] == k && if i == 0 then signer in roots else signer == path[i - 1]
  }

  /** A key with a certificate by each of its signers. Those along the chain are genuine. */
  function KeyOf(path: seq<KeyId>, roots: set<KeyId>, k: KeyId, signers: seq<KeyId>): Key
  {
    var bySigner := seq(|signers|, i requires 0 <= i < |signers| => CertBy(signers[i], OnPath(path, roots, k, signers[i]), i));
    Key(Unknown, Some([]), bySigner, NOTHING, -1)
  }

  function StoreOf(g: Graph, roots: set<KeyId>, path: seq<KeyId>): (keys: Keys)
  {
    map k | k in g.Keys + roots :: if k in g then KeyOf(path, roots, k, g[k]) else RootKey([])
  }

  /** No key has two certificates with the same signature. */
  ghost predicate NoDuplicates(keys: Keys)
  {
    forall id, i, j :: id in keys && 0 <= i < j < |keys[id].certs| ==>
                         keys[id].certs[i].signature != keys[id].certs[j].signature
  }

  lemma {:induction false} KeyIs(path: seq<KeyId>, roots: set<KeyId>, k: KeyId, signers: seq<KeyId>)
    ensures var key := KeyOf(path, roots, k, signers);
            && (signers != [] ==> KeyOk(key)) && Signers(key.certs) == signers && key.trust.Unknown?
            && (forall i, j :: 0 <= i < j < |key.certs| ==> key.certs[i].signature != key.certs[j].signature)
            && (forall c :: c in key.certs ==> c.scope == EVERYTHING)
            && (forall c :: c in key.certs ==> (c.signedData == GENUINE <==> OnPath(path, roots, k, c.caKeyId)))
  {
    var key := KeyOf(path, roots, k, signers);
    assert Usable(EVERYTHING);
    hide Usable, OnPath;
    assert Signers(key.certs) == signers;
    assert forall i :: 0 <= i < |key.certs| ==> |key.certs[i].signature| == i;
  }

  lemma {:induction false} StoreIs(g: Graph, roots: set<KeyId>, path: seq<KeyId>)
    requires roots !! g.Keys && forall k :: k in g ==> g[k] != []
    ensures var keys := StoreOf(g, roots, path);
            && KeysOk(keys) && SignedBy(keys) == g && keys.Keys == g.Keys + roots
            && HardcodedKeys(keys) == roots && NoDuplicates(keys)
  {
    var keys := StoreOf(g, roots, path);
    assert KeyOk(RootKey([]));
    hide KeyOk, KeyOf;
    forall k | k in g
      ensures k in keys && KeyOk(keys[k]) && keys[k] == KeyOf(path, roots, k, g[k]) && keys[k].trust.Unknown?
      ensures Signers(keys[k].certs) == g[k]
      ensures forall i, j :: 0 <= i < j < |keys[k].certs| ==> keys[k].certs[i].signature != keys[k].certs[j].signature
    {
      KeyIs(path, roots, k, g[k]);
    }
    assert forall k :: k in SignedBy(keys) <==> k in g;
    assert forall k :: k in HardcodedKeys(keys) <==> k in roots;
  }

  /** A genuine certificate by a trusted signer counts if the signer was finished first, and no
      other certificate does. */
  lemma {:induction false} GenuineCounts(keys: Keys, rank: Rank, id: KeyId, c: Cert)
    requires KeysOk(keys) && c.scope == EVERYTHING
    ensures Counts(keys, OnlyGenuine, rank, id, c) <==>
              && c.caKeyId in keys && c.caKeyId != id && keys[c.caKeyId].trust.IsTrusted()
              && c.signedData == GENUINE && Before(keys, rank, c.caKeyId, id)
  {
    if c.caKeyId in keys && keys[c.caKeyId].trust.IsTrusted() {
      AllOk(keys, c.caKeyId);
    }
  }

  /** A key is trusted exactly when one of its certificates is selected. */
  lemma {:induction false} Selected(keys: Keys, id: KeyId, p: Cert -> bool)
    requires id in keys && Follows(keys, keys[id], p)
    ensures keys[id].trust.Trusted? <==> exists c :: c in keys[id].certs && p(c)
  {
    var k := keys[id];
    if c :| c in k.certs && p(c) {
      var i :| 0 <= i < |k.certs| && k.certs[i] == c;
      assert p(k.certs[i]);
    }
  }

  /** Keys that were evaluated from a store in which exactly the certificates along the chain are
      genuine, in an order that keeps all signatures of the chain but perhaps the last. */
  ghost predicate Trial(g: Graph, roots: set<KeyId>, path: seq<KeyId>, keys: Keys, rank: Rank)
  {
    && roots !! g.Keys && AnchorPath(g, roots, path) && |path| >= 2 && path[|path| - 2] != path[|path| - 1]
    && SameInput(StoreOf(g, roots, path), keys) && KeysOk(keys) && Evaluated(keys, OnlyGenuine, rank)
    && (forall i :: 0 <= i < |path| ==> path[i] in rank)
    && forall i :: 0 < i < |path| - 1 && path[i - 1] != path[i] ==> rank[path[i - 1]] < rank[path[i]]
  }

  /** What decides about the trust of a key in such a trial. */
  lemma {:induction false} TrialDecides(g: Graph, roots: set<KeyId>, path: seq<KeyId>, keys: Keys, rank: Rank, id: KeyId)
    requires Trial(g, roots, path, keys, rank) && id in g
    ensures id in keys && !keys[id].trust.IsTerminal()
    ensures keys[id].trust.Trusted? <==>
              exists s :: s in g[id] && s in keys && s != id && keys[s].trust.IsTrusted()
                          && OnPath(path, roots, id, s) && Before(keys, rank, s, id)
  {
    var certs := keys[id].certs;
    KeyIs(path, roots, id, g[id]);
    hide KeyOf, KeysOk, Counts, OnPath, AnchorPath, Before;
    assert certs == KeyOf(path, roots, id, g[id]).certs && Signers(certs) == g[id];
    forall c | c in certs
      ensures c.caKeyId in g[id]
      ensures Counts(keys, OnlyGenuine, rank, id, c) <==>
                && c.caKeyId in keys && c.caKeyId != id && keys[c.caKeyId].trust.IsTrusted()
                && OnPath(path, roots, id, c.caKeyId) && Before(keys, rank, c.caKeyId, id)
    {
      GenuineCounts(keys, rank, id, c);
      var i :| 0 <= i < |certs| && certs[i] == c;
      assert Signers(certs)[i] == c.caKeyId;
    }
    forall s | s in g[id]
      ensures exists c :: c in certs && c.caKeyId == s
    {
      var i :| 0 <= i < |g[id]| && g[id][i] == s;
      assert certs[i].caKeyId == s;
    }
    Selected(keys, id, c => Counts(keys, OnlyGenuine, rank, id, c));
  }

  lemma {:induction false} RootsAreTrusted(g: Graph, roots: set<KeyId>, path: seq<KeyId>, keys: Keys, rank: Rank, r: KeyId)
    requires Trial(g, roots, path, keys, rank) && r in roots
    ensures r in keys && r !in g && keys[r].trust.Hardcoded?
  {
    assert r in g.Keys + roots;
    assert StoreOf(g, roots, path)[r] == RootKey([]);
  }

  lemma StartsPath(path: seq<KeyId>, roots: set<KeyId>, r: KeyId)
    requires path != [] && r in roots
    ensures OnPath(path, roots, path[0], r)
  {
    assert IsStep(path, roots, path[0], r, 0);
  }

  lemma FollowsOnPath(path: seq<KeyId>, roots: set<KeyId>, i: nat)
    requires 0 < i < |path|
    ensures OnPath(path, roots, path[i], path[i - 1])
  {
    assert IsStep(path, roots, path[i], path[i - 1], i);
  }

  /** All keys of the chain but perhaps the last are trusted. */
  lemma {:induction false} InnerIsTrusted(g: Graph, roots: set<KeyId>, path: seq<KeyId>, keys: Keys, rank: Rank, i: nat)
    requires Trial(g, roots, path, keys, rank) && i < |path| - 1
    ensures path[i] in keys && keys[path[i]].trust.Trusted?
    decreases i
  {
    TrialDecides(g, roots, path, keys, rank, path[i]);
    if i == 0 {
      var r :| r in g[path[0]] && r in roots;
      RootsAreTrusted(g, roots, path, keys, rank, r);
      StartsPath(path, roots, r);
    } else {
      InnerIsTrusted(g, roots, path, keys, rank, i - 1);
      FollowsOnPath(path, roots, i);
    }
  }

  /** The last key is trusted if and only if it was finished after its signer on the chain. */
  lemma {:induction false} LastDecides(g: Graph, roots: set<KeyId>, path: seq<KeyId>, keys: Keys, rank: Rank)
    requires Trial(g, roots, path, keys, rank)
    requires forall i :: 0 <= i < |path| - 1 ==> path[i] != path[|path| - 1]
    ensures var id, s := path[|path| - 1], path[|path| - 2];
            id in keys && !keys[id].trust.IsTerminal() && (keys[id].trust.Trusted? <==> rank[s] < rank[id])
  {
    var id, s := path[|path| - 1], path[|path| - 2];
    LastSigner(g, roots, path, s, id);
    IsKnown(g, roots, path, keys, rank);
    TrialDecides(g, roots, path, keys, rank, id);
    InnerIsTrusted(g, roots, path, keys, rank, |path| - 2);
    hide OnPath, Trial;
  }

  lemma {:induction false} LastSigner(g: Graph, roots: set<KeyId>, path: seq<KeyId>, s: KeyId, id: KeyId)
    requires AnchorPath(g, roots, path) && |path| >= 2 && s == path[|path| - 2] && id == path[|path| - 1]
    requires forall i :: 0 <= i < |path| - 1 ==> path[i] != id
    ensures id in g && s in g && s in g[id]
    ensures forall t :: OnPath(path, roots, id, t) <==> t == s
  {
    FollowsOnPath(path, roots, |path| - 1);
  }

  lemma {:induction false} IsKnown(g: Graph, roots: set<KeyId>, path: seq<KeyId>, keys: Keys, rank: Rank)
    requires Trial(g, roots, path, keys, rank)
    ensures path[|path| - 2] in rank && path[|path| - 1] in rank && path[|path| - 2] != path[|path| - 1]
  {
    hide SameInput, AnchorPath, KeysOk, Evaluated;
  }

  // --- Two orders that disagree ----------------------------------------------------------

  lemma {:induction false} FinishedChain(done: seq<KeyId>, a: KeyId, b: KeyId, c: KeyId)
    requires Distinct(done) && FinishedBefore(done, a, b) && FinishedBefore(done, b, c)
    ensures FinishedBefore(done, a, c)
  {}

  lemma {:induction false} FinishedOnce(done: seq<KeyId>, a: KeyId, b: KeyId)
    requires Distinct(done) && FinishedBefore(done, a, b)
    ensures !FinishedBefore(done, b, a) && a != b
  {}

  /** In every order, the keys of a shortest chain that breaks are finished one after the other, but
      perhaps for the last. */
  lemma {:induction false} InnerInOrder(g: Graph, roots: set<KeyId>, ids: set<KeyId>, path: seq<KeyId>, order: seq<KeyId>,
                                        i: nat, j: nat)
    requires AnchorPath(g, roots, path) && NoneShorter(g, roots, ids, |path|) && g.Keys <= ids && Lists(order, ids)
    requires i <= j < |path| - 1
    ensures path[i] == path[j] || FinishedBefore(VisitAll(g, [], order), path[i], path[j])
    decreases j
  {
    if i < j {
      InnerInOrder(g, roots, ids, path, order, i, j - 1);
      VisitAllIsProper(g, [], order);
      if path[j - 1] != path[j] {
        InnerHolds(g, roots, ids, path, order, j);
        hide VisitAll, FinishedBefore, AnchorPath, NoneShorter;
        if path[i] != path[j - 1] {
          FinishedChain(VisitAll(g, [], order), path[i], path[j - 1], path[j]);
        }
      }
    }
  }

  /** The last key of a shortest chain that breaks occurs once. */
  lemma {:induction false} LastIsNew(g: Graph, roots: set<KeyId>, ids: set<KeyId>, path: seq<KeyId>, order: seq<KeyId>, i: nat)
    requires Breaks(g, roots, ids, path, order) && NoneShorter(g, roots, ids, |path|) && g.Keys <= ids
    requires i < |path| - 1
    ensures path[i] != path[|path| - 1]
  {
    if path[i] == path[|path| - 1] {
      var id, s := path[|path| - 1], path[|path| - 2];
      assert id in g.Keys;
      var other := MoveToFront(order, id);
      FirstVisited(g, other, id, s);
      InnerInOrder(g, roots, ids, path, other, i, |path| - 2);
      VisitAllIsProper(g, [], other);
      hide VisitAll, FinishedBefore, AnchorPath, NoneShorter;
      FinishedOnce(VisitAll(g, [], other), s, id);
    }
  }

  lemma {:induction false} RankTells(done: seq<KeyId>, s: KeyId, id: KeyId)
    requires Distinct(done) && FinishedBefore(done, s, id)
    ensures s in RankOf(done) && id in RankOf(done) && RankOf(done)[s] < RankOf(done)[id]
  {
    hide RankOf;
    RankIs(done);
  }

  lemma {:induction false} IsTrial(g: Graph, roots: set<KeyId>, path: seq<KeyId>, broken: seq<KeyId>, order: seq<KeyId>)
    requires roots !! g.Keys && forall k :: k in g ==> g[k] != []
    requires Breaks(g, roots, g.Keys + roots, path, broken) && NoneShorter(g, roots, g.Keys + roots, |path|)
    requires Lists(order, g.Keys + roots)
    ensures var keys := StoreOf(g, roots, path);
            && KeysOk(keys) && Covers(order, keys)
            && Trial(g, roots, path, EvaluationOf(keys, OnlyGenuine, order), RankOf(VisitAll(g, [], order)))
  {
    hide EvaluationOf, VisitAll, RankOf, StoreOf, KeysOk, Evaluated, FinishedBefore, NoDuplicates, NoneShorter;
    var ids, keys, done := g.Keys + roots, StoreOf(g, roots, path), VisitAll(g, [], order);
    StoreIs(g, roots, path);
    EvaluationIs(keys, OnlyGenuine, order);
    SameGraph(keys, EvaluationOf(keys, OnlyGenuine, order));
    forall i | 0 <= i < |path|
      ensures path[i] in RankOf(done)
    {
      assert path[i] in g.Keys;
      IsRanked(g, order, path[i]);
    }
    forall i | 0 < i < |path| - 1 && path[i - 1] != path[i]
      ensures RankOf(done)[path[i - 1]] < RankOf(done)[path[i]]
    {
      InnerHolds(g, roots, ids, path, order, i);
      VisitAllIsProper(g, [], order);
      RankTells(done, path[i - 1], path[i]);
    }
  }

  lemma {:induction false} IsRanked(g: Graph, order: seq<KeyId>, id: KeyId)
    requires id in g && id in order
    ensures id in RankOf(VisitAll(g, [], order))
  {
    VisitAllIsProper(g, [], order);
    hide VisitAll, RankOf;
    RankIs(VisitAll(g, [], order));
  }

  /** In a store in which exactly the certificates along such a chain are genuine, the last key is
      trusted exactly in the orders that finish its signer first. */
  lemma {:induction false} TrustInOrder(g: Graph, roots: set<KeyId>, path: seq<KeyId>, broken: seq<KeyId>, order: seq<KeyId>)
    requires roots !! g.Keys && forall k :: k in g ==> g[k] != []
    requires Breaks(g, roots, g.Keys + roots, path, broken) && NoneShorter(g, roots, g.Keys + roots, |path|)
    requires Lists(order, g.Keys + roots)
    ensures var keys, id, s := StoreOf(g, roots, path), path[|path| - 1], path[|path| - 2];
            var after, done := EvaluationOf(keys, OnlyGenuine, order), VisitAll(g, [], order);
            && id in after && !after[id].trust.IsTerminal()
            && (after[id].trust.Trusted? <==> FinishedBefore(done, s, id))
            && (FinishedBefore(done, s, id) <==> !FinishedBefore(done, id, s))
  {
    var keys, id, s := StoreOf(g, roots, path), path[|path| - 1], path[|path| - 2];
    var done := VisitAll(g, [], order);
    IsTrial(g, roots, path, broken, order);
    forall i | 0 <= i < |path| - 1
      ensures path[i] != id
    {
      LastIsNew(g, roots, g.Keys + roots, path, broken, i);
    }
    assert id in g.Keys && s in g.Keys;
    OneIsFirst(g, order, id, s);
    VisitAllIsProper(g, [], order);
    LastDecides(g, roots, path, EvaluationOf(keys, OnlyGenuine, order), RankOf(done));
    hide EvaluationOf, VisitAll, RankOf, StoreOf, FinishedBefore, Trial, AnchorPath, Breaks, NoneShorter;
    if FinishedBefore(done, s, id) {
      RankTells(done, s, id);
      FinishedOnce(done, s, id);
    } else {
      RankTells(done, id, s);
    }
  }

  /** The key is trusted in one of the orders and not in the other. */
  ghost predicate Disagree(keys: Keys, verify: Verifier, orderA: seq<KeyId>, orderB: seq<KeyId>, id: KeyId)
  {
    var a, b := EvaluationOf(keys, verify, orderA), EvaluationOf(keys, verify, orderB);
    id in a && id in b && a[id].trust.Trusted? != b[id].trust.Trusted?
  }

  /** For every graph with a circle among the keys that the roots vouch for, and for every visiting
      order, there are certificates with that graph, and another order, so that some key is trusted
      in one and not in the other. */
  lemma {:induction false} CirclesMakeOrderMatter(g: Graph, roots: set<KeyId>, order: seq<KeyId>)
    returns (keys: Keys, other: seq<KeyId>, id: KeyId)
    requires roots !! g.Keys && forall k :: k in g ==> g[k] != []
    requires !NoCirclesAmong(g, AnchoredKeys(g, roots)) && Lists(order, g.Keys + roots)
    ensures KeysOk(keys) && NoDuplicates(keys) && SignedBy(keys) == g && HardcodedKeys(keys) == roots
    ensures Covers(order, keys) && Covers(other, keys) && id in keys && Disagree(keys, OnlyGenuine, order, other, id)
  {
    hide EvaluationOf, VisitAll, NoCirclesAmong, AnchoredKeys, KeysOk, StoreOf, NoneShorter;
    var ids := g.Keys + roots;
    var some := SomethingBreaks(g, roots, ids, order);
    var path, broken := ShortestBreaks(g, roots, ids, some, order);
    id := path[|path| - 1];
    keys := StoreOf(g, roots, path);
    StoreIs(g, roots, path);
    TrustInOrder(g, roots, path, broken, order);
    if FinishedBefore(VisitAll(g, [], order), id, path[|path| - 2]) {
      other := MoveToFront(order, id);
      FirstVisited(g, other, id, path[|path| - 2]);
    } else {
      other := broken;
    }
    TrustInOrder(g, roots, path, broken, other);
  }

  // --- Exactly where it does -------------------------------------------------------------

  /** Whatever the certificates of this graph say, as long as only the given roots are hardcoded, all
      orders give the same trust. */
  ghost predicate OrderIsIrrelevantUnder(g: Graph, roots: set<KeyId>)
  {
    forall keys: Keys, verify: Verifier, orderA: seq<KeyId>, orderB: seq<KeyId>, id: KeyId ::
      KeysOk(keys) && SignedBy(keys) == g && HardcodedKeys(keys) <= roots
      && Covers(orderA, keys) && Covers(orderB, keys) && id in keys ==>
        SameTrust(EvaluationOf(keys, verify, orderA), EvaluationOf(keys, verify, orderB), id)
  }

  /** Whatever the certificates of this graph say, and whatever is hardcoded, all orders give the
      same trust. */
  ghost predicate OrderIsIrrelevant(g: Graph)
  {
    forall keys: Keys, verify: Verifier, orderA: seq<KeyId>, orderB: seq<KeyId>, id: KeyId ::
      KeysOk(keys) && SignedBy(keys) == g && Covers(orderA, keys) && Covers(orderB, keys) && id in keys ==>
        SameTrust(EvaluationOf(keys, verify, orderA), EvaluationOf(keys, verify, orderB), id)
  }

  lemma {:induction false} FewerCircles(g: Graph, live: set<KeyId>, more: set<KeyId>)
    requires live <= more && NoCirclesAmong(g, more)
    ensures NoCirclesAmong(g, live)
  {
    var depth: KeyId -> nat :| Acyclic(g, more, depth);
    assert Acyclic(g, live, depth);
  }

  /** With more roots, more keys are anchored. Roots that sign nothing in the graph do not matter. */
  lemma {:induction false} MoreAnchors(g: Graph, roots: set<KeyId>, more: set<KeyId>)
    requires forall r, k :: r in roots && k in g && r in g[k] ==> r in more
    ensures AnchoredKeys(g, roots) <= AnchoredKeys(g, more)
  {
    forall id | id in AnchoredKeys(g, roots)
      ensures id in AnchoredKeys(g, more)
    {
      var path :| AnchorPath(g, roots, path) && path[|path| - 1] == id;
      var first := path[0];
      assert first in g;
      var r :| r in g[first] && r in roots;
      assert r in more;
      assert AnchorPath(g, more, path);
    }
  }

  /** For any set of roots: the order in which keys are visited is irrelevant for a certificate graph
      if and only if signatures do not run in circles among the keys that a root vouches for. Every
      key has a certificate, as in every store. */
  lemma {:induction false} OrderIsIrrelevantUnderIff(g: Graph, roots: set<KeyId>)
    requires roots !! g.Keys && forall k :: k in g ==> g[k] != []
    ensures OrderIsIrrelevantUnder(g, roots) <==> NoCirclesAmong(g, AnchoredKeys(g, roots))
  {
    hide EvaluationOf, NoCirclesAmong, AnchoredKeys, KeysOk;
    if NoCirclesAmong(g, AnchoredKeys(g, roots)) {
      forall keys: Keys, verify: Verifier, orderA: seq<KeyId>, orderB: seq<KeyId>, id: KeyId |
        KeysOk(keys) && SignedBy(keys) == g && HardcodedKeys(keys) <= roots
        && Covers(orderA, keys) && Covers(orderB, keys) && id in keys
        ensures SameTrust(EvaluationOf(keys, verify, orderA), EvaluationOf(keys, verify, orderB), id)
      {
        MoreAnchors(g, HardcodedKeys(keys), roots);
        FewerCircles(g, AnchoredKeys(g, HardcodedKeys(keys)), AnchoredKeys(g, roots));
        OrderDoesNotMatterFor(keys, verify, orderA, orderB, id);
      }
    } else {
      var order := SomeOrder(g.Keys + roots);
      var keys, other, id := CirclesMakeOrderMatter(g, roots, order);
      assert Disagree(keys, OnlyGenuine, order, other, id);
    }
  }

  /** The signers that are not keys of the graph themselves. */
  function Outside(g: Graph): set<KeyId>
  {
    set k, s | k in g && s in g[k] && s !in g :: s
  }

  /** The order in which keys are visited is irrelevant for a certificate graph if and only if
      signatures do not run in circles among the keys that a chain of signatures leads to from
      outside the graph. */
  lemma {:induction false} OrderIsIrrelevantIff(g: Graph)
    requires forall k :: k in g ==> g[k] != []
    ensures OrderIsIrrelevant(g) <==> NoCirclesAmong(g, AnchoredKeys(g, Outside(g)))
  {
    var roots := Outside(g);
    OrderIsIrrelevantUnderIff(g, roots);
    hide EvaluationOf, Anchored, KeysOk;
    if NoCirclesAmong(g, AnchoredKeys(g, roots)) {
      hide NoCirclesAmong, AnchoredKeys;
      forall keys: Keys, verify: Verifier, orderA: seq<KeyId>, orderB: seq<KeyId>, id: KeyId |
        KeysOk(keys) && SignedBy(keys) == g && Covers(orderA, keys) && Covers(orderB, keys) && id in keys
        ensures SameTrust(EvaluationOf(keys, verify, orderA), EvaluationOf(keys, verify, orderB), id)
      {
        MoreAnchors(g, HardcodedKeys(keys), roots);
        FewerCircles(g, AnchoredKeys(g, HardcodedKeys(keys)), AnchoredKeys(g, roots));
        OrderDoesNotMatterFor(keys, verify, orderA, orderB, id);
      }
    }
  }

  /** A circle that nothing outside vouches for is harmless. */
  lemma {:induction false} HarmlessCircle()
    ensures var g: Graph := map[1 := [2], 2 := [1]];
            !NoCircles(g) && OrderIsIrrelevant(g)
  {
    var g: Graph := map[1 := [2], 2 := [1]];
    forall depth: KeyId -> nat
      ensures !Acyclic(g, g.Keys, depth)
    {
      assert 1 in g && 2 in g[1] && 2 in g && 1 in g[2];
    }
    assert Outside(g) == {};
    assert AnchoredKeys(g, {}) == {};
    assert Acyclic(g, {}, id => 0);
    OrderIsIrrelevantIff(g);
  }

  /** The root signs every key. */
  function WithRoot(g: Graph, root: KeyId): Graph { map k | k in g :: [root] + g[k] }

  /** Where the root signs every key, the condition is that there are no circles at all. */
  lemma {:induction false} RootedIsIrrelevantIff(g: Graph, root: KeyId)
    requires root !in g
    ensures OrderIsIrrelevant(WithRoot(g, root)) <==> NoCircles(g)
  {
    var all := WithRoot(g, root);
    OrderIsIrrelevantIff(all);
    AllAnchored(g, root);
    SameCircles(g, root);
  }

  lemma {:induction false} AllAnchored(g: Graph, root: KeyId)
    requires root !in g
    ensures AnchoredKeys(WithRoot(g, root), Outside(WithRoot(g, root))) == WithRoot(g, root).Keys
  {
    var all := WithRoot(g, root);
    forall id | id in all
      ensures Anchored(all, Outside(all), id)
    {
      assert all[id][0] == root && root in all[id] && root !in all;
      assert root in Outside(all);
      AnchoredByRoot(all, Outside(all), root, id);
    }
  }

  lemma {:induction false} SameCircles(g: Graph, root: KeyId)
    requires root !in g
    ensures NoCircles(WithRoot(g, root)) <==> NoCircles(g)
  {
    var all := WithRoot(g, root);
    forall id, s | id in g
      ensures s in all[id] <==> s == root || s in g[id]
    {}
    if NoCircles(all) {
      var depth: KeyId -> nat :| Acyclic(all, all.Keys, depth);
      assert Acyclic(g, g.Keys, depth);
    }
    if NoCircles(g) {
      var depth: KeyId -> nat :| Acyclic(g, g.Keys, depth);
      assert Acyclic(all, all.Keys, depth);
    }
  }
}
