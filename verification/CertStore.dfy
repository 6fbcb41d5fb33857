/** The certificate store: a map of public keys whose trust is evaluated on demand. */
module CertStore {
  import opened Basics
  import opened CertScope
  import opened CertTrust
  import opened KeyGraph

  /** Facts that hold in the middle of an evaluation: finished keys are settled for good. */
  ghost predicate Partial(keys: Keys, verify: Verifier, rank: Rank, clock: nat)
  {
    && (forall id :: id in rank ==> id in keys && keys[id].trust.IsEvaluated() && rank[id] < clock)
    && (forall id :: id in keys && keys[id].trust.IsEvaluated() ==> id in rank && Settled(keys, verify, rank, id))
  }

  ghost function Unknowns(keys: Keys): set<KeyId>
  {
    set id | id in keys && keys[id].trust.Unknown?
  }

  /** An evaluation step only finishes unknown keys; all others keep their values. */
  ghost predicate Progress(before: Keys, after: Keys)
  {
    && after.Keys == before.Keys
    && (forall id :: id in before && !before[id].trust.Unknown? ==> after[id] == before[id])
    && (forall id :: id in before && before[id].trust.Unknown? ==>
          && (after[id].trust.Unknown? || after[id].trust.IsEvaluated())
          && after[id].certs == before[id].certs && after[id].publicKey == before[id].publicKey)
  }

  /** `n` is the newest certificate that `p` selects among the first `i`, or -1. */
  ghost predicate Best(certs: seq<Cert>, p: Cert -> bool, i: nat, n: int)
    requires i <= |certs|
  {
    if n == -1 then forall j :: 0 <= j < i ==> !p(certs[j])
    else
      && 0 <= n < i && p(certs[n])
      && forall j :: 0 <= j < i && p(certs[j]) ==>
           certs[j].created < certs[n].created || (certs[j].created == certs[n].created && n <= j)
  }

  lemma {:induction false} BestNext(certs: seq<Cert>, p: Cert -> bool, i: nat, n: int, m: int)
    requires i < |certs| && Best(certs, p, i, n)
    requires m == if p(certs[i]) && (n < 0 || certs[n].created < certs[i].created) then i else n
    ensures Best(certs, p, i + 1, m)
  {}

  lemma {:induction false} BestSame(certs: seq<Cert>, p: Cert -> bool, q: Cert -> bool, i: nat, n: int)
    requires i <= |certs| && Best(certs, p, i, n)
    requires forall j :: 0 <= j < i ==> p(certs[j]) == q(certs[j])
    ensures Best(certs, q, i, n)
  {}

  /** The best certificate among the first `i` is recorded, with the scope it grants. */
  ghost predicate Scanned(keys: Keys, verify: Verifier, id: KeyId, i: nat)
    requires id in keys && i <= |keys[id].certs|
  {
    var k := keys[id];
    && Best(k.certs, c => Confers(keys, verify, id, c), i, k.newest)
    && (k.newest >= 0 ==>
          && k.certs[k.newest].caKeyId in keys
          && k.scope == Granted(keys[k.certs[k.newest].caKeyId].scope, k.certs[k.newest].scope)
          && Usable(k.scope))
  }

  /** The signer of a scanned certificate has been dealt with. */
  ghost predicate SignerDone(keys: Keys, id: KeyId, c: Cert)
  {
    c.caKeyId in keys && c.caKeyId != id ==> !keys[c.caKeyId].trust.Unknown?
  }

  lemma {:induction false} FollowsStays(a: Keys, b: Keys, k: Key, p: Cert -> bool, q: Cert -> bool)
    requires Follows(a, k, p)
    requires forall c :: c in k.certs ==> p(c) == q(c)
    requires forall c :: c in k.certs && p(c) ==> c.caKeyId in a && c.caKeyId in b && a[c.caKeyId].scope == b[c.caKeyId].scope
    ensures Follows(b, k, q)
  {
    if exists j :: 0 <= j < |k.certs| && p(k.certs[j]) {
      assert q(k.certs[k.newest]);
    }
  }

  /** A finished key `j` stays settled when another, unfinished key changes. */
  lemma {:induction false} OthersStay(a: Keys, b: Keys, verify: Verifier, rank: Rank, r: Rank, id: KeyId, k: Key,
                                      j: KeyId)
    requires id in a && b == a[id := k] && j in a && j != id && j in rank
    requires a[id].trust.Unknown? || a[id].trust.UnknownWorking?
    requires id !in rank
    requires if k.trust.IsEvaluated() then id in r && r == rank[id := r[id]] && rank[j] < r[id]
             else r == rank && (k.trust.Unknown? || k.trust.UnknownWorking?)
    ensures Settled(a, verify, rank, j) ==> Settled(b, verify, r, j)
  {
    forall c | c in a[j].certs
      ensures Counts(a, verify, rank, j, c) == Counts(b, verify, r, j, c)
    {
    }
    if Settled(a, verify, rank, j) {
      FollowsStays(a, b, a[j], c => Counts(a, verify, rank, j, c), c => Counts(b, verify, r, j, c));
    }
  }

  /** Changing a key that is not finished, without finishing it, unsettles nothing. */
  lemma {:induction false} UnfinishedChange(a: Keys, verify: Verifier, rank: Rank, clock: nat, id: KeyId, k: Key)
    requires Partial(a, verify, rank, clock) && id in a
    requires a[id].trust.Unknown? || a[id].trust.UnknownWorking?
    requires k.trust.Unknown? || k.trust.UnknownWorking?
    ensures Partial(a[id := k], verify, rank, clock)
  {
    hide Settled;
    var b := a[id := k];
    forall j | j in b && b[j].trust.IsEvaluated()
      ensures j in rank && Settled(b, verify, rank, j)
    {
      OthersStay(a, b, verify, rank, rank, id, k, j);
    }
  }

  lemma {:induction false} SelfSettles(a: Keys, b: Keys, verify: Verifier, rank: Rank, clock: nat, id: KeyId, k: Key)
    requires Partial(a, verify, rank, clock) && id in a && b == a[id := k]
    requires a[id].trust.UnknownWorking? || a[id].trust.Unknown?
    requires k.trust.IsEvaluated() && k.certs == a[id].certs
    requires Follows(a, k, c => Confers(a, verify, id, c))
    ensures Settled(b, verify, rank[id := clock], id)
  {
    var r := rank[id := clock];
    forall c | c in k.certs
      ensures Confers(a, verify, id, c) == Counts(b, verify, r, id, c)
    {
    }
    FollowsStays(a, b, k, c => Confers(a, verify, id, c), c => Counts(b, verify, r, id, c));
  }

  /** Finishing a key that follows its signers settles it and unsettles nothing. */
  lemma {:induction false} FinishedChange(a: Keys, verify: Verifier, rank: Rank, clock: nat, id: KeyId, k: Key)
    requires Partial(a, verify, rank, clock) && id in a
    requires a[id].trust.UnknownWorking? || a[id].trust.Unknown?
    requires k.trust.IsEvaluated() && k.certs == a[id].certs
    requires Follows(a, k, c => Confers(a, verify, id, c))
    ensures Partial(a[id := k], verify, rank[id := clock], clock + 1)
  {
    var b, r := a[id := k], rank[id := clock];
    SelfSettles(a, b, verify, rank, clock, id, k);
    hide Settled, Follows;
    forall j | j in b && b[j].trust.IsEvaluated() && j != id
      ensures j in r && Settled(b, verify, r, j)
      {
      OthersStay(a, b, verify, rank, r, id, k, j);
    }
  }

  lemma {:induction false} ScanStays(a: Keys, b: Keys, verify: Verifier, id: KeyId, i: nat)
    requires id in a && i <= |a[id].certs| && a[id].trust.UnknownWorking? && Progress(a, b)
    requires forall j :: 0 <= j < i ==> SignerDone(a, id, a[id].certs[j])
    requires Scanned(a, verify, id, i)
    ensures b[id] == a[id] && Scanned(b, verify, id, i)
    ensures forall j :: 0 <= j < i ==> SignerDone(b, id, b[id].certs[j])
  {
    var k := a[id];
    forall j | 0 <= j < i
      ensures Confers(b, verify, id, k.certs[j]) == Confers(a, verify, id, k.certs[j])
    {
      assert SignerDone(a, id, k.certs[j]);
    }
    BestSame(k.certs, c => Confers(a, verify, id, c), c => Confers(b, verify, id, c), i, k.newest);
  }

  lemma {:induction false} ConfersStays(keys: Keys, verify: Verifier, id: KeyId, k: Key, c: Cert)
    requires id in keys
    ensures Confers(keys[id := k], verify, id, c) == Confers(keys, verify, id, c)
  {}

  /** Scanning certificate `i`: it is skipped, or compared with the best one so far. */
  lemma {:induction false} ScanNext(keys: Keys, verify: Verifier, id: KeyId, i: nat, k: Key)
    requires id in keys && i < |keys[id].certs| && Scanned(keys, verify, id, i) && KeysOk(keys)
    requires k.certs == keys[id].certs
    requires var c, n := keys[id].certs[i], keys[id].newest;
             if Confers(keys, verify, id, c) && (n < 0 || keys[id].certs[n].created < c.created) then
               k.newest == i && k.scope == Granted(keys[c.caKeyId].scope, c.scope)
             else k.newest == n && k.scope == keys[id].scope
    ensures Scanned(keys[id := k], verify, id, i + 1)
  {
    var l, b := keys[id], keys[id := k];
    var c := l.certs[i];
    AllOk(keys, id);
    if Confers(keys, verify, id, c) {
      AllOk(keys, c.caKeyId);
      GrantedIsUsable(keys[c.caKeyId].scope, c.scope);
    }
    forall j | 0 <= j < i + 1
      ensures Confers(b, verify, id, l.certs[j]) == Confers(keys, verify, id, l.certs[j])
    {
      ConfersStays(keys, verify, id, k, l.certs[j]);
    }
    hide Confers, Granted, Usable;
    var p := c => Confers(keys, verify, id, c);
    assert k.newest >= 0 ==> p(l.certs[k.newest]);
    BestNext(l.certs, p, i, l.newest, k.newest);
    BestSame(l.certs, p, c => Confers(b, verify, id, c), i + 1, k.newest);
    SelfIsNoSigner(keys, verify, id, l.certs, k.newest);
  }

  lemma {:induction false} SelfIsNoSigner(keys: Keys, verify: Verifier, id: KeyId, certs: seq<Cert>, n: int)
    requires 0 <= n < |certs| ==> Confers(keys, verify, id, certs[n])
    ensures 0 <= n < |certs| ==> certs[n].caKeyId in keys && certs[n].caKeyId != id
  {}

  lemma {:induction false} GrantedIsUsable(signer: Scope, cert: Scope)
    requires Usable(signer) && Usable(cert)
    requires Granted(signer, cert).apps != [] && Granted(signer, cert).pops != []
    ensures Usable(Granted(signer, cert))
  {
    IntersectionIsMeet(signer.apps, cert.apps);
    IntersectionIsMeet(signer.pops, cert.pops);
  }

  /** What a scanned key becomes. */
  function Conclude(k: Key): Key
  {
    if k.newest < 0 then k.(trust := NotTrusted, scope := NOTHING) else k.(trust := Trusted)
  }

  lemma {:induction false} ScanEnds(keys: Keys, verify: Verifier, id: KeyId)
    requires id in keys && Scanned(keys, verify, id, |keys[id].certs|)
    ensures Follows(keys, Conclude(keys[id]), c => Confers(keys, verify, id, c))
    ensures Conclude(keys[id]).trust.Trusted? ==> Usable(keys[id].scope)
  {
    var k := keys[id];
    assert k.certs[..|k.certs|] == k.certs;
  }

  lemma {:induction false} ProgressChain(a: Keys, b: Keys, c: Keys)
    requires Progress(a, b) && Progress(b, c)
    ensures Progress(a, c)
  {}

  lemma {:induction false} UnknownsShrink(a: Keys, b: Keys)
    requires Progress(a, b)
    ensures Unknowns(b) <= Unknowns(a)
  {
    forall id | id in Unknowns(b)
      ensures id in Unknowns(a)
    {
      assert a[id].trust.Unknown?;
    }
  }

  lemma {:induction false} UnknownsUpdate(a: Keys, id: KeyId, k: Key)
    requires id in a && k.trust.UnknownWorking?
    ensures Unknowns(a[id := k]) == Unknowns(a) - {id}
  {}

  /** From an unknown key to its conclusion, with progress on other keys in between. */
  lemma {:induction false} WholeProgress(start: Keys, working: Key, keys: Keys, id: KeyId, k: Key)
    requires id in start && start[id].trust.Unknown? && Progress(start[id := working], keys)
    requires working.trust.UnknownWorking? && k.trust.IsEvaluated()
    requires k.certs == start[id].certs && k.publicKey == start[id].publicKey
    ensures Progress(start, keys[id := k])
    ensures Unknowns(keys[id := k]) < Unknowns(start)
  {
    var b := keys[id := k];
    assert id in Unknowns(start) && id !in Unknowns(b);
    forall j | j in Unknowns(b) ensures j in Unknowns(start) {}
  }

  lemma {:induction false} KeysOkUpdate(keys: Keys, id: KeyId, k: Key)
    requires KeysOk(keys) && KeyOk(k)
    ensures KeysOk(keys[id := k])
  {}

  /** The evaluation of `id` that started from `start` has dealt with the first `i` certificates. */
  ghost predicate Working(start: Keys, keys: Keys, verify: Verifier, id: KeyId, i: nat)
  {
    && id in start && start[id].trust.Unknown?
    && id in keys && keys[id].trust.UnknownWorking?
    && keys[id].certs == start[id].certs && keys[id].publicKey == start[id].publicKey
    && Progress(start[id := keys[id]], keys)
    && i <= |keys[id].certs|
    && Scanned(keys, verify, id, i)
    && forall j :: 0 <= j < i ==> SignerDone(keys, id, keys[id].certs[j])
  }

  /** Key `id` after certificate `i` was compared with the best one so far. */
  function Compared(keys: Keys, verify: Verifier, id: KeyId, i: nat): Key
    requires id in keys && i < |keys[id].certs| && keys[id].newest < |keys[id].certs|
  {
    var k := keys[id];
    var c := k.certs[i];
    if Confers(keys, verify, id, c) && (k.newest < 0 || k.certs[k.newest].created < c.created) then
      k.(scope := Granted(keys[c.caKeyId].scope, c.scope), newest := i)
    else
      k
  }

  lemma {:induction false} ScannedBounds(keys: Keys, verify: Verifier, id: KeyId, i: nat)
    requires id in keys && i <= |keys[id].certs| && Scanned(keys, verify, id, i)
    ensures -1 <= keys[id].newest < i
  {}

  lemma {:induction false} WorkingCompared(start: Keys, keys: Keys, verify: Verifier, id: KeyId, i: nat)
    requires Working(start, keys, verify, id, i) && i < |keys[id].certs| && KeysOk(keys)
    requires SignerDone(keys, id, keys[id].certs[i])
    ensures keys[id].newest < i
    ensures Working(start, keys[id := Compared(keys, verify, id, i)], verify, id, i + 1)
  {
    hide Confers, Best, Granted, Usable;
    ScannedBounds(keys, verify, id, i);
    ScanNext(keys, verify, id, i, Compared(keys, verify, id, i));
  }

  lemma {:induction false} WorkingStays(start: Keys, a: Keys, b: Keys, verify: Verifier, id: KeyId, i: nat)
    requires Working(start, a, verify, id, i) && Progress(a, b)
    ensures Working(start, b, verify, id, i) && b[id] == a[id]
  {
    hide Confers, Best, Scanned, Granted, Usable, SignerDone;
    ScanStays(a, b, verify, id, i);
    ProgressChain(start[id := a[id]], a, b);
  }

  lemma {:induction false} ComparedOk(keys: Keys, verify: Verifier, id: KeyId, i: nat)
    requires KeysOk(keys) && id in keys && i < |keys[id].certs| && keys[id].newest < |keys[id].certs|
    requires keys[id].trust.UnknownWorking?
    ensures KeysOk(keys[id := Compared(keys, verify, id, i)])
  {
    AllOk(keys, id);
    KeysOkUpdate(keys, id, Compared(keys, verify, id, i));
  }

  lemma {:induction false} ConcludedOk(keys: Keys, verify: Verifier, id: KeyId)
    requires KeysOk(keys) && id in keys && keys[id].trust.UnknownWorking?
    requires Scanned(keys, verify, id, |keys[id].certs|)
    ensures KeysOk(keys[id := Conclude(keys[id])])
  {
    AllOk(keys, id);
    KeysOkUpdate(keys, id, Conclude(keys[id]));
  }

  function WorkingSet(keys: Keys): set<KeyId>
  {
    set id | id in keys && keys[id].trust.UnknownWorking?
  }

  /** Progress changes neither the certificate graph nor what is being worked on. */
  lemma {:induction false} ProgressGraph(a: Keys, b: Keys)
    requires Progress(a, b)
    ensures SignedBy(a) == SignedBy(b) && WorkingSet(a) == WorkingSet(b)
  {
    ProgressKeepsCerts(a, b);
    forall id | id in a
      ensures a[id].trust.UnknownWorking? == b[id].trust.UnknownWorking?
    {
      if !a[id].trust.Unknown? {
        assert b[id] == a[id];
      }
    }
    SameGraph(a, b);
    assert WorkingSet(a) == WorkingSet(b);
  }

  lemma {:induction false} WorkingGraph(start: Keys, keys: Keys, verify: Verifier, id: KeyId, i: nat)
    requires Working(start, keys, verify, id, i)
    ensures SignedBy(keys) == SignedBy(start) && WorkingSet(keys) == WorkingSet(start) + {id}
    ensures id in SignedBy(start) && SignedBy(start)[id] == Signers(keys[id].certs)
  {
    hide Scanned, SignerDone, Progress;
    var a := start[id := keys[id]];
    ProgressGraph(a, keys);
    assert SignedBy(a) == SignedBy(start);
    assert WorkingSet(a) == WorkingSet(start) + {id};
  }

  lemma {:induction false} RankKeys(done: seq<KeyId>)
    ensures forall id :: id in RankOf(done) <==> id in done
    decreases |done|
  {
    if done != [] {
      var n := |done| - 1;
      RankKeys(done[..n]);
      assert done == done[..n] + [done[n]];
    }
  }

  lemma {:induction false} RankMore(done: seq<KeyId>, id: KeyId)
    ensures RankOf(done + [id]) == RankOf(done)[id := |done|]
  {
    assert (done + [id])[..|done|] == done;
  }

  /** Which keys a visit leaves alone. */
  lemma {:induction false} NotVisited(keys: Keys, verify: Verifier, done: seq<KeyId>, id: KeyId)
    requires Partial(keys, verify, RankOf(done), |done|)
    ensures id in done <==> id in keys && keys[id].trust.IsEvaluated()
    ensures id in SignedBy(keys) <==> id in keys && !keys[id].trust.IsTerminal()
    ensures id in WorkingSet(keys) <==> id in keys && keys[id].trust.UnknownWorking?
  {
    hide Settled, RankOf;
    RankKeys(done);
  }

  /** The static state of the certificate store. Each key object is owned by the map alone, so
      the entries are values of the map. */
  class Store {
    const verify: Verifier
    const rootId: KeyId
    const rootKey: PublicKey
    var keys: Keys
    var trustValid: bool

    /** The order in which the keys were visited by the last evaluation, and in which they got
        their trust. */
    ghost var order: seq<KeyId>
    ghost var finished: seq<KeyId>

    ghost predicate Evaluating()
      reads this
    {
      KeysOk(keys) && Partial(keys, verify, RankOf(finished), |finished|)
    }

    ghost predicate At(start: Keys, id: KeyId, i: nat)
      reads this
    {
      Evaluating() && Working(start, keys, verify, id, i)
    }

    /** Marks a key as being worked on. */
    method Begin(id: KeyId)
      requires Evaluating() && id in keys && keys[id].trust.Unknown?
      modifies `keys
      ensures At(old(keys), id, 0)
      ensures Unknowns(keys) == Unknowns(old(keys)) - {id}
    {
      hide Settled, Confers, RankOf;
      ghost var k := keys[id].(trust := UnknownWorking, newest := -1);
      UnfinishedChange(keys, verify, RankOf(finished), |finished|, id, k);
      AllOk(keys, id);
      KeysOkUpdate(keys, id, k);
      ghost var start := keys;
      keys := keys[id := keys[id].(trust := UnknownWorking)];
      keys := keys[id := keys[id].(newest := -1)];
      assert keys == start[id := k];
      UnknownsUpdate(start, id, k);
    }

    /** Looks at certificate `i`, after evaluating its signer unless that is being worked on. */
    method ConsiderCert(id: KeyId, i: nat, ghost start: Keys)
      requires At(start, id, i) && i < |keys[id].certs|
      modifies `keys, `finished
      ensures At(start, id, i + 1)
      ensures Unknowns(keys) <= Unknowns(old(keys))
      ensures finished == Visit(SignedBy(start), WorkingSet(start) + {id}, old(finished), start[id].certs[i].caKeyId)
      decreases Unknowns(keys), 1
    {
      hide Settled, Partial, Progress, Confers, KeysOk, Scanned, RankOf, SignedBy, WorkingSet;
      var cert := keys[id].certs[i];
      ghost var a := keys;
      WorkingGraph(start, a, verify, id, i);
      NotVisited(a, verify, finished, cert.caKeyId);
      if cert.caKeyId in keys && cert.caKeyId != id && !keys[cert.caKeyId].trust.UnknownWorking? {
        RecursiveEvaluateKeyTrust(cert.caKeyId);
        WorkingStays(start, a, keys, verify, id, i);
        UnknownsShrink(a, keys);
      }
      ghost var b := keys;
      WorkingCompared(start, b, verify, id, i);
      ghost var k := Compared(b, verify, id, i);
      UnfinishedChange(b, verify, RankOf(finished), |finished|, id, k);
      ComparedOk(b, verify, id, i);
      UnknownsUpdate(b, id, k);
      Compare(id, i);
    }

    /** Evaluates the trust of a key and, first, of the keys that signed its certificates. */
    method RecursiveEvaluateKeyTrust(id: KeyId)
      requires Evaluating() && id in keys && !keys[id].trust.UnknownWorking?
      modifies `keys, `finished
      ensures Evaluating() && Progress(old(keys), keys)
      ensures keys[id].trust.IsTerminal() || keys[id].trust.IsEvaluated()
      ensures old(keys)[id].trust.Unknown? ==> Unknowns(keys) < Unknowns(old(keys))
      ensures finished == Visit(SignedBy(old(keys)), WorkingSet(old(keys)), old(finished), id)
      decreases Unknowns(keys), 0
    {
      NotVisited(keys, verify, finished, id);
      if !keys[id].trust.Unknown? {
        return;
      }
      hide Settled, Follows, Confers, Scanned, Partial, KeysOk, SignerDone, RankOf, WorkingSet;
      ghost var start, before := keys, finished;
      ghost var g, w, signers := SignedBy(start), WorkingSet(start) + {id}, Signers(start[id].certs);
      Begin(id);
      assert id in Unknowns(start);
      var i := 0;
      assert signers[0..] == signers;
      while i < |keys[id].certs|
        invariant id in keys && i <= |keys[id].certs| && At(start, id, i)
        invariant Unknowns(keys) < Unknowns(start)
        invariant VisitSigners(g, w, finished, signers[i..]) == VisitSigners(g, w, before, signers)
        decreases |start[id].certs| - i
      {
        assert signers[i..][1..] == signers[i + 1..];
        ConsiderCert(id, i, start);
        i := i + 1;
      }
      Finish(id, start);
    }

    /** Gives a key its trust once all its certificates were looked at. */
    method Finish(id: KeyId, ghost start: Keys)
      requires id in keys && At(start, id, |keys[id].certs|)
      modifies `keys, `finished
      ensures Evaluating() && Progress(start, keys) && Unknowns(keys) < Unknowns(start)
      ensures keys[id].trust.IsEvaluated() && finished == old(finished) + [id]
    {
      hide Settled, Follows, Confers, Scanned, Partial, KeysOk, SignerDone, Progress, RankOf;
      ghost var k := Conclude(keys[id]);
      ScanEnds(keys, verify, id);
      ConcludedOk(keys, verify, id);
      FinishedChange(keys, verify, RankOf(finished), |finished|, id, k);
      WholeProgress(start, keys[id], keys, id, k);
      RankMore(finished, id);
      if keys[id].newest < 0 {
        keys := keys[id := keys[id].(trust := NotTrusted, scope := NOTHING)];
      } else {
        keys := keys[id := keys[id].(trust := Trusted)];
      }
      finished := finished + [id];
    }

    /** Compares certificate `i` with the best one so far and keeps the better one. */
    method Compare(id: KeyId, i: nat)
      requires KeysOk(keys) && id in keys && i < |keys[id].certs| && keys[id].newest < |keys[id].certs|
      modifies `keys
      ensures keys == old(keys)[id := Compared(old(keys), verify, id, i)]
    {
      hide KeyOk;
      var cert := keys[id].certs[i];
      if cert.caKeyId !in keys || cert.caKeyId == id {
        return;
      }
      var signer := keys[cert.caKeyId];
      if !signer.trust.IsTrusted() {
        return;
      }
      TrustedHasKey(keys, id, cert.caKeyId, i);
      if !verify(signer.publicKey.value, cert.signedData, cert.signature) {
        return;
      }
      assert Usable(signer.scope) && Usable(cert.scope);
      var authScope := Granted(signer.scope, cert.scope);
      if authScope.apps == [] || authScope.pops == [] {
        return;
      }
      var n := keys[id].newest;
      if n < 0 || keys[id].certs[n].created < cert.created {
        keys := keys[id := keys[id].(scope := authScope)];
        keys := keys[id := keys[id].(newest := i)];
      }
    }

    /** What every operation keeps. While the cached trust is valid, it is what an evaluation from
        scratch of the present certificates and revocations leaves, in some order of the keys. */
    ghost predicate Valid()
      reads this
    {
      && KeysOk(keys)
      && (forall id :: id in keys ==> !keys[id].trust.UnknownWorking?)
      && (trustValid ==> keys != map[] && Covers(order, keys) && EvaluatedInOrder(keys, verify, order))
    }

    constructor (verify: Verifier, rootId: KeyId, rootKey: PublicKey)
      ensures Valid() && keys == map[] && !trustValid
      ensures this.verify == verify && this.rootId == rootId && this.rootKey == rootKey
    {
      this.verify, this.rootId, this.rootKey := verify, rootId, rootKey;
      keys, trustValid := map[], false;
      order, finished := [], [];
    }

    ghost function Initialized(): Keys
      reads this
    {
      WithRootKey(rootId, rootKey, keys)
    }

    method OneTimeInit()
      requires Valid()
      modifies `keys
      ensures Valid() && keys != map[] && keys == old(Initialized())
    {
      if |keys| == 0 {
        keys := map[rootId := RootKey(rootKey)];
        assert rootId in keys;
      }
    }

    method Reset()
      requires Valid()
      modifies `keys, `trustValid
      ensures Valid() && keys == map[] && !trustValid
    {
      keys := map[];
      trustValid := false;
    }

    method AddKeyRevocation(id: KeyId)
      requires Valid()
      modifies `keys, `trustValid
      ensures Valid()
      ensures keys == old(keys)[id := if id in old(keys) then old(keys)[id].(trust := Revoked) else RevokedKey()]
      ensures trustValid == (old(trustValid) && id in old(keys) && old(keys)[id].trust.Revoked?)
    {
      hide EvaluatedInOrder;
      if id !in keys {
        keys := keys[id := RevokedKey()];
        trustValid := false;
        return;
      }
      if keys[id].trust.Revoked? {
        assert keys[id] == old(keys)[id].(trust := Revoked);
        return;
      }
      AllOk(keys, id);
      keys := keys[id := keys[id].(trust := Revoked)];
      trustValid := false;
    }

    /** Adds a certificate, if its text could be parsed. Fails if another key has its identifier. */
    method AddCert(parsed: Option<Parsed>) returns (ok: bool)
      requires Valid() && (parsed.Some? ==> Usable(parsed.value.cert.scope))
      modifies `keys, `trustValid
      ensures Valid()
      ensures var start := old(Initialized());
              && ok == (parsed.Some? && !Collides(start, parsed.value))
              && (!ok ==> keys == start)
              && (ok ==> var p := parsed.value; keys == start[p.id := Extended(start, p.id, p.publicKey, p.cert)])
              && trustValid == (old(trustValid) && keys == start)
    {
      hide EvaluatedInOrder;
      OneTimeInit();
      if parsed.None? {
        return false;
      }
      var id, publicKey, cert := parsed.value.id, parsed.value.publicKey, parsed.value.cert;
      ghost var start := keys;
      var k: Key;
      if id in keys {
        k := keys[id];
        AllOk(keys, id);
        if k.publicKey != Some(publicKey) {
          if k.publicKey.Some? {
            return false;
          }
          // No key data, it was revoked before its certificate came.
          assert k.trust.Revoked?;
          k := k.(publicKey := Some(publicKey));
        }
        for i := 0 to |k.certs|
          invariant forall j :: 0 <= j < i ==> k.certs[j].signature != cert.signature
        {
          if k.certs[i].signature == cert.signature {
            assert k == keys[id];
            return true;
          }
        }
      } else {
        k := Key(Unknown, Some(publicKey), [], NOTHING, -1);
      }
      assert [] + [cert] == [cert];
      k := k.(certs := k.certs + [cert]);
      assert k == Extended(start, id, publicKey, cert);
      keys := keys[id := k];
      trustValid := false;
      assert keys[id].certs != [];
      return true;
    }

    /** Forgets the trust of every key that is neither revoked nor hardcoded. */
    method MarkUnknown(order: seq<KeyId>)
      requires KeysOk(keys) && Covers(order, keys)
      modifies `keys
      ensures KeysOk(keys) && SameInput(old(keys), keys)
      ensures forall id :: id in keys ==> keys[id].trust.IsTerminal() || keys[id].trust.Unknown?
    {
      ghost var start := keys;
      for i := 0 to |order|
        invariant SameInput(start, keys) && KeysOk(keys)
        invariant forall j :: 0 <= j < i ==>
                    order[j] in keys && (keys[order[j]].trust.IsTerminal() || keys[order[j]].trust.Unknown?)
      {
        var id := order[i];
        AllOk(keys, id);
        if !keys[id].trust.IsTerminal() {
          keys := keys[id := keys[id].(trust := Unknown)];
        }
      }
    }

    /** Evaluates all keys, whose trust is unknown to begin with, in the given order. */
    method EvaluateAll(order: seq<KeyId>)
      requires KeysOk(keys) && Covers(order, keys)
      requires forall id :: id in keys ==> keys[id].trust.IsTerminal() || keys[id].trust.Unknown?
      modifies `keys, `finished
      ensures KeysOk(keys) && SameInput(old(keys), keys) && EvaluatedInOrder(keys, verify, order)
      ensures finished == VisitAll(SignedBy(keys), [], order)
      ensures forall id :: id in keys ==> !keys[id].trust.UnknownWorking?
    {
      hide Settled, KeysOk, SignedBy, RankOf, Visit;
      finished := [];
      ghost var start := keys;
      ghost var g := SignedBy(start);
      NothingFinished(keys, verify);
      ProgressSelf(keys);
      assert order[0..] == order;
      for i := 0 to |order|
        invariant Evaluating() && Progress(start, keys) && NoneWorking(keys) && DoneBefore(keys, order, i)
        invariant VisitAll(g, finished, order[i..]) == VisitAll(g, [], order)
      {
        hide Partial, NoneWorking, DoneBefore;
        ghost var before := keys;
        CoveredKey(start, before, order, i);
        assert order[i..][1..] == order[i + 1..];
        RecursiveEvaluateKeyTrust(order[i]);
        ProgressChain(start, before, keys);
        AfterKey(before, keys, order, i);
      }
      ProgressGraph(start, keys);
      ProgressKeepsCerts(start, keys);
      AllDone(keys, verify, finished, order);
    }

    /** Brings the trust of all keys up to date. When it is not valid yet, the keys are visited in
        the given order. */
    method EnsureTrustValid(order: seq<KeyId>)
      requires Valid() && Covers(order, Initialized())
      modifies `keys, `trustValid, `order, `finished
      ensures Valid() && trustValid && SameInput(old(Initialized()), keys)
      ensures if old(trustValid) then keys == old(keys) && this.order == old(this.order) else this.order == order
    {
      hide EvaluatedInOrder, Settled, VisitAll;
      OneTimeInit();
      if trustValid {
        return;
      }
      MarkUnknown(order);
      EvaluateAll(order);
      this.order := order;
      trustValid := true;
    }

    /** The rights of the CA key that signed `data`, if it is trusted at time `now`. When there
        are any, `path` is the chain of keys from that key to the root. */
    method CheckCASignature(data: Bytes, caKeyId: KeyId, signature: Bytes, now: int, order: seq<KeyId>)
      returns (scope: Option<Scope>, ghost path: seq<KeyId>)
      requires Valid() && Covers(order, Initialized()) && now <= TIME_MAX
      modifies `keys, `trustValid, `order, `finished
      ensures Valid() && trustValid && SameInput(old(Initialized()), keys)
      ensures scope.Some? <==>
                && data != [] && |signature| == 64 && caKeyId != 0
                && caKeyId in keys && keys[caKeyId].trust.IsTrusted()
                && now <= keys[caKeyId].scope.expiry
                && keys[caKeyId].publicKey.Some? && verify(keys[caKeyId].publicKey.value, data, signature)
      ensures scope.Some? ==> scope.value == keys[caKeyId].scope
      ensures scope.Some? ==>
                && Chain(keys, verify, path) && path[0] == caKeyId
                && Along(keys, path, (c: Cert) => now <= c.scope.expiry)
    {
      scope, path := None, [];
      EnsureTrustValid(order);
      hide Chain, Along, Settled, RankOf;
      if data == [] || signature == [] || caKeyId == 0 || caKeyId !in keys {
        return;
      }
      var k := keys[caKeyId];
      if !k.trust.IsTrusted() || k.scope.expiry < now || |signature| != SIGNATURE_SIZE {
        return;
      }
      AllOk(keys, caKeyId);
      if !verify(k.publicKey.value, data, signature) {
        return;
      }
      path := TrustHasChain(keys, verify, RankOf(VisitAll(SignedBy(keys), [], this.order)), caKeyId);
      ChainExpires(keys, verify, path, now);
      scope := Some(k.scope);
    }

    /** The rights of a public key, if it is trusted at time `now` and not revoked. */
    method CheckPublicKey(id: KeyId, now: int, order: seq<KeyId>) returns (scope: Option<Scope>)
      requires Valid() && Covers(order, Initialized())
      modifies `keys, `trustValid, `order, `finished
      ensures Valid() && trustValid && SameInput(old(Initialized()), keys)
      ensures scope.Some? <==> id in keys && keys[id].trust.IsTrusted() && now <= keys[id].scope.expiry
      ensures scope.Some? ==> scope.value == keys[id].scope
    {
      EnsureTrustValid(order);
      if id !in keys || keys[id].trust.Revoked? || !keys[id].trust.IsTrusted() || keys[id].scope.expiry < now {
        return None;
      }
      return Some(keys[id].scope);
    }
  }

  const SIGNATURE_SIZE := 64

  /** All keys of the store, each once, in some order. */
  ghost predicate Covers(order: seq<KeyId>, keys: Keys) { Lists(order, keys.Keys) }

  /** The keys have the trust that visiting them in the given order gives them. */
  ghost predicate EvaluatedInOrder(keys: Keys, verify: Verifier, order: seq<KeyId>)
  {
    Evaluated(keys, verify, RankOf(VisitAll(SignedBy(keys), [], order)))
  }

  function RootKey(publicKey: PublicKey): Key
  {
    Key(Hardcoded, Some(publicKey), [], EVERYTHING, -1)
  }

  /** An entry for a key of which only the revocation is known. */
  function RevokedKey(): Key { Key(Revoked, None, [], NOTHING, -1) }

  /** What new entries are: the root may do everything for ever, and a key of which only the revocation
      is known has nothing. */
  lemma NewEntriesAre(keys: Keys, rootId: KeyId, rootKey: PublicKey)
    ensures WithRootKey(rootId, rootKey, map[]) ==
              map[rootId := Key(Hardcoded, Some(rootKey), [], Scope([0xFFFF_FFFF], [0xFFFF_FFFF], 0x7FFF_FFFF_FFFF_FFFF), -1)]
    ensures keys != map[] ==> WithRootKey(rootId, rootKey, keys) == keys
    ensures RevokedKey() == Key(Revoked, None, [], Scope([], [], 0), -1)
  {}

  /** The root is put into an empty store. */
  function WithRootKey(rootId: KeyId, rootKey: PublicKey, keys: Keys): Keys
  {
    if keys == map[] then map[rootId := RootKey(rootKey)] else keys
  }

  /** A certificate as it is parsed: for a public key with an identifier. */
  datatype Parsed = Parsed(id: KeyId, publicKey: PublicKey, cert: Cert)

  /** Another key has the identifier. */
  predicate Collides(keys: Keys, p: Parsed)
  {
    p.id in keys && keys[p.id].publicKey.Some? && keys[p.id].publicKey.value != p.publicKey
  }

  /** The entry for `id` with one more certificate. A revoked key stays revoked. */
  function Extended(keys: Keys, id: KeyId, publicKey: PublicKey, cert: Cert): Key
  {
    if id in keys then
      keys[id].(publicKey := Some(publicKey), certs := WithCert(keys[id].certs, cert))
    else
      Key(Unknown, Some(publicKey), [cert], NOTHING, -1)
  }

  /** A certificate is only added if none has its signature. */
  function WithCert(certs: seq<Cert>, cert: Cert): seq<Cert>
  {
    if exists j :: 0 <= j < |certs| && certs[j].signature == cert.signature then certs else certs + [cert]
  }

  ghost predicate NoneWorking(keys: Keys)
  {
    forall id :: id in keys ==> !keys[id].trust.UnknownWorking?
  }

  ghost predicate DoneBefore(keys: Keys, order: seq<KeyId>, i: nat)
  {
    forall j :: 0 <= j < i && j < |order| && order[j] in keys ==>
      keys[order[j]].trust.IsTerminal() || keys[order[j]].trust.IsEvaluated()
  }

  lemma ProgressSelf(keys: Keys)
    ensures Progress(keys, keys)
  {}

  lemma {:induction false} ProgressKeepsCerts(a: Keys, b: Keys)
    requires Progress(a, b)
    ensures SameInput(a, b)
  {
    forall id | id in a
      ensures a[id].certs == b[id].certs && a[id].publicKey == b[id].publicKey
      ensures a[id].trust.Revoked? == b[id].trust.Revoked? && a[id].trust.Hardcoded? == b[id].trust.Hardcoded?
    {
      if a[id].trust.Unknown? {
      } else {
        assert b[id] == a[id];
      }
    }
  }

  lemma {:induction false} NothingFinished(keys: Keys, verify: Verifier)
    requires forall id :: id in keys ==> keys[id].trust.IsTerminal() || keys[id].trust.Unknown?
    ensures Partial(keys, verify, RankOf([]), 0) && NoneWorking(keys)
  {}

  lemma {:induction false} CoveredKey(start: Keys, keys: Keys, order: seq<KeyId>, i: nat)
    requires Covers(order, start) && Progress(start, keys) && NoneWorking(keys) && i < |order|
    ensures order[i] in keys && !keys[order[i]].trust.UnknownWorking?
    ensures WorkingSet(keys) == {} && SignedBy(keys) == SignedBy(start)
  {
    ProgressGraph(start, keys);
    var id := order[i];
    assert id in order;
    assert id in start && id in keys;
    assert forall w :: w !in WorkingSet(keys);
  }

  lemma {:induction false} AfterKey(a: Keys, b: Keys, order: seq<KeyId>, i: nat)
    requires Progress(a, b) && NoneWorking(a) && DoneBefore(a, order, i) && i < |order| && order[i] in b
    requires b[order[i]].trust.IsTerminal() || b[order[i]].trust.IsEvaluated()
    ensures NoneWorking(b) && DoneBefore(b, order, i + 1)
  {
    forall id | id in b
      ensures !b[id].trust.UnknownWorking?
      ensures !a[id].trust.Unknown? ==> b[id] == a[id]
    {
      if !a[id].trust.Unknown? {
        assert b[id] == a[id];
      }
    }
  }

  lemma {:induction false} AllDone(keys: Keys, verify: Verifier, done: seq<KeyId>, order: seq<KeyId>)
    requires Partial(keys, verify, RankOf(done), |done|) && Covers(order, keys) && DoneBefore(keys, order, |order|)
    requires done == VisitAll(SignedBy(keys), [], order)
    ensures EvaluatedInOrder(keys, verify, order)
  {
    hide Settled, RankOf;
    RankKeys(done);
    forall id | id in keys
      ensures keys[id].trust.IsTerminal() || keys[id].trust.IsEvaluated()
    {
      assert id in order;
    }
  }

  lemma {:induction false} TrustedHasKey(keys: Keys, id: KeyId, signer: KeyId, i: nat)
    requires KeysOk(keys) && signer in keys && keys[signer].trust.IsTrusted()
    requires id in keys && i < |keys[id].certs|
    ensures keys[signer].publicKey.Some? && Usable(keys[signer].scope) && Usable(keys[id].certs[i].scope)
  {
    AllOk(keys, signer);
    AllOk(keys, id);
  }
}
