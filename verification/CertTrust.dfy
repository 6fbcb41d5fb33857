/** When a key of the certificate store is trusted, and with which rights. */
module CertTrust {
  import opened Basics
  import opened CertScope
  import opened KeyGraph

  type PublicKey = seq<bv8>
  type Bytes = seq<bv8>

  /** Signature verification of a blob under a public key. */
  type Verifier = (PublicKey, Bytes, Bytes) -> bool

  datatype Trust = Revoked | NotTrusted | UnknownWorking | Unknown | Trusted | Hardcoded
  {
    predicate IsTrusted() { Trusted? || Hardcoded? }
    predicate IsTerminal() { Revoked? || Hardcoded? }
    predicate IsEvaluated() { Trusted? || NotTrusted? }
  }

  datatype Cert = Cert(signedData: Bytes, caKeyId: KeyId, signature: Bytes, scope: Scope, created: int)

  /** An entry of the key map. `newest` is the index of the certificate in use, or -1. */
  datatype Key = Key(trust: Trust, publicKey: Option<PublicKey>, certs: seq<Cert>, scope: Scope, newest: int)

  type Keys = map<KeyId, Key>

  /** What the rest of the store guarantees about an entry. */
  ghost predicate KeyOk(k: Key)
  {
    && (forall c :: c in k.certs ==> Usable(c.scope))
    && (!k.trust.Revoked? ==> k.publicKey.Some?)
    && (k.publicKey.None? ==> k.certs == [])
    && (!k.trust.IsTerminal() ==> k.certs != [])
    && (k.trust.IsTrusted() ==> Usable(k.scope))
    && (k.trust.Hardcoded? ==> k.scope == EVERYTHING)
  }

  ghost predicate KeysOk(keys: Keys)
  {
    forall id :: id in keys ==> KeyOk(keys[id])
  }

  lemma AllOk(keys: Keys, id: KeyId)
    requires KeysOk(keys) && id in keys
    ensures KeyOk(keys[id])
  {}

  /** The certificate confers trust on key `id` as the keys stand now. */
  predicate Confers(keys: Keys, verify: Verifier, id: KeyId, c: Cert)
  {
    && c.caKeyId in keys && c.caKeyId != id
    && keys[c.caKeyId].trust.IsTrusted()
    && keys[c.caKeyId].publicKey.Some?
    && verify(keys[c.caKeyId].publicKey.value, c.signedData, c.signature)
    && Granted(keys[c.caKeyId].scope, c.scope).apps != []
    && Granted(keys[c.caKeyId].scope, c.scope).pops != []
  }

  /** Key `s` had its final trust when `id` got its own. */
  ghost predicate Before(keys: Keys, rank: Rank, s: KeyId, id: KeyId)
  {
    s in keys && (keys[s].trust.IsTerminal() || (s in rank && id in rank && rank[s] < rank[id]))
  }

  /** The certificates that counted when `id` was evaluated. */
  ghost predicate Counts(keys: Keys, verify: Verifier, rank: Rank, id: KeyId, c: Cert)
  {
    Confers(keys, verify, id, c) && Before(keys, rank, c.caKeyId, id)
  }

  /** Among the certificates that `p` selects, `i` is the newest one, and the first of those. */
  ghost predicate IsNewest(certs: seq<Cert>, p: Cert -> bool, i: int)
  {
    && 0 <= i < |certs| && p(certs[i])
    && forall j :: 0 <= j < |certs| && p(certs[j]) ==>
         certs[j].created < certs[i].created || (certs[j].created == certs[i].created && i <= j)
  }

  /** The trust and scope of key `k` are those that the certificates selected by `p` give it. */
  ghost predicate Follows(keys: Keys, k: Key, p: Cert -> bool)
  {
    if exists j :: 0 <= j < |k.certs| && p(k.certs[j]) then
      && k.trust.Trusted?
      && IsNewest(k.certs, p, k.newest)
      && k.certs[k.newest].caKeyId in keys
      && k.scope == Granted(keys[k.certs[k.newest].caKeyId].scope, k.certs[k.newest].scope)
    else
      k.trust.NotTrusted? && k.newest == -1 && k.scope == NOTHING
  }

  /** Key `id` has the trust that its evaluation order gives it. */
  ghost predicate Settled(keys: Keys, verify: Verifier, rank: Rank, id: KeyId)
    requires id in keys
  {
    Follows(keys, keys[id], c => Counts(keys, verify, rank, id, c))
  }

  /** Key `id` has exactly the trust that the final trust of all its signers implies. */
  ghost predicate Exact(keys: Keys, verify: Verifier, id: KeyId)
    requires id in keys
  {
    Follows(keys, keys[id], c => Confers(keys, verify, id, c))
  }

  /** Every key has its final trust. */
  ghost predicate Evaluated(keys: Keys, verify: Verifier, rank: Rank)
  {
    forall id :: id in keys ==>
      keys[id].trust.IsTerminal() || (keys[id].trust.IsEvaluated() && id in rank && Settled(keys, verify, rank, id))
  }

  /** Who signed the certificates of the keys that are evaluated. */
  function SignedBy(keys: Keys): (g: Graph)
    ensures forall id :: id in g <==> id in keys && !keys[id].trust.IsTerminal()
  {
    map id | id in keys && !keys[id].trust.IsTerminal() :: Signers(keys[id].certs)
  }

  function Signers(certs: seq<Cert>): (signers: seq<KeyId>)
    ensures |signers| == |certs| && forall i :: 0 <= i < |certs| ==> signers[i] == certs[i].caKeyId
  {
    seq(|certs|, i requires 0 <= i < |certs| => certs[i].caKeyId)
  }

  /** All trusted signers of key `id` had their final trust before it. */
  ghost predicate Ordered(keys: Keys, rank: Rank, id: KeyId)
    requires id in keys
  {
    forall c :: c in keys[id].certs && c.caKeyId in keys && c.caKeyId != id && keys[c.caKeyId].trust.IsTrusted() ==>
                  Before(keys, rank, c.caKeyId, id)
  }

  lemma {:induction false} OrderedIsExact(keys: Keys, verify: Verifier, rank: Rank, id: KeyId)
    requires id in keys && Settled(keys, verify, rank, id) && Ordered(keys, rank, id)
    ensures Exact(keys, verify, id)
  {
    var k := keys[id];
    assert forall j :: 0 <= j < |k.certs| ==>
      Counts(keys, verify, rank, id, k.certs[j]) == Confers(keys, verify, id, k.certs[j]);
  }

  // --- What trust means -------------------------------------------------------------------

  /** The certificate in use, for any way of verifying signatures: another key signed it, which is
      trusted, and the signature of the certificate verifies its data under the public key of that
      signer. The rights are what both allow, and there are some. Of all such certificates whose
      signer was finished first it is the newest, and the first of those. */
  lemma {:induction false} TrustedHasCertificate(keys: Keys, verify: Verifier, rank: Rank, id: KeyId) returns (n: nat)
    requires KeysOk(keys) && Evaluated(keys, verify, rank) && id in keys && keys[id].trust.Trusted?
    ensures n < |keys[id].certs| && n == keys[id].newest
    ensures var c := keys[id].certs[n];
            && c.caKeyId in keys && c.caKeyId != id
            && var s := keys[c.caKeyId];
            && (s.trust == Trusted || s.trust == Hardcoded) && s.publicKey.Some?
            && verify(s.publicKey.value, c.signedData, c.signature)
            && Intersection(s.scope.apps, c.scope.apps) == keys[id].scope.apps != []
            && Intersection(s.scope.pops, c.scope.pops) == keys[id].scope.pops != []
            && keys[id].scope.expiry == Min(s.scope.expiry, c.scope.expiry)
    ensures forall i :: 0 <= i < |keys[id].certs| && Valid(keys, verify, id, keys[id].certs[i])
                        && Before(keys, rank, keys[id].certs[i].caKeyId, id) ==>
              keys[id].certs[i].created < keys[id].certs[n].created
              || (keys[id].certs[i].created == keys[id].certs[n].created && n <= i)
  {
    var k := keys[id];
    n := k.newest;
    assert Counts(keys, verify, rank, id, k.certs[n]);
    forall i | 0 <= i < |k.certs|
      ensures Valid(keys, verify, id, k.certs[i]) <==> Confers(keys, verify, id, k.certs[i])
    {
      ValidIff(keys, verify, id, k.certs[i]);
    }
  }

  /** The certificate is by another key that is trusted, its signature is that key's for its data,
      and the two allow something in common. */
  predicate Valid(keys: Keys, verify: Verifier, id: KeyId, c: Cert)
  {
    && c.caKeyId in keys && c.caKeyId != id
    && var s := keys[c.caKeyId];
    && (s.trust == Trusted || s.trust == Hardcoded) && s.publicKey.Some?
    && verify(s.publicKey.value, c.signedData, c.signature)
    && Intersection(s.scope.apps, c.scope.apps) != [] && Intersection(s.scope.pops, c.scope.pops) != []
  }

  lemma {:induction false} ValidIff(keys: Keys, verify: Verifier, id: KeyId, c: Cert)
    ensures Valid(keys, verify, id, c) <==> Confers(keys, verify, id, c)
  {}

  /** A key whose trusted signers were all finished before it is trusted if and only if it has a
      certificate by another trusted key, whose signature verifies the data of the certificate under
      that key, and which allows something of what that key may do. */
  lemma {:induction false} TrustedIff(keys: Keys, verify: Verifier, rank: Rank, id: KeyId)
    requires KeysOk(keys) && Evaluated(keys, verify, rank) && id in keys && !keys[id].trust.IsTerminal()
    requires Ordered(keys, rank, id)
    ensures keys[id].trust == Trusted || keys[id].trust == NotTrusted
    ensures keys[id].trust == NotTrusted ==> keys[id].newest == -1 && keys[id].scope == Scope([], [], 0)
    ensures keys[id].trust == Trusted <==>
              exists c :: c in keys[id].certs && c.caKeyId in keys && c.caKeyId != id
                          && (keys[c.caKeyId].trust == Trusted || keys[c.caKeyId].trust == Hardcoded)
                          && keys[c.caKeyId].publicKey.Some?
                          && verify(keys[c.caKeyId].publicKey.value, c.signedData, c.signature)
                          && Intersection(keys[c.caKeyId].scope.apps, c.scope.apps) != []
                          && Intersection(keys[c.caKeyId].scope.pops, c.scope.pops) != []
  {
    var k := keys[id];
    OrderedIsExact(keys, verify, rank, id);
    hide Intersection;
    forall c | c in k.certs
      ensures Valid(keys, verify, id, c) <==> Confers(keys, verify, id, c)
    {
      ValidIff(keys, verify, id, c);
    }
    if c :| c in k.certs && Valid(keys, verify, id, c) {
      var i :| 0 <= i < |k.certs| && k.certs[i] == c;
    }
    if k.trust.Trusted? {
      assert Valid(keys, verify, id, k.certs[k.newest]);
    }
  }

  // --- Soundness ------------------------------------------------------------------------

  /** A chain of trust: every key but the last is vouched for by the next one, with a verified
      certificate, and the last is the hardcoded root. */
  ghost predicate Chain(keys: Keys, verify: Verifier, path: seq<KeyId>)
  {
    && path != []
    && (forall i :: 0 <= i < |path| ==> path[i] in keys)
    && keys[path[|path| - 1]].trust.Hardcoded?
    && forall i :: 0 <= i < |path| - 1 ==> Link(keys, verify, path[i], path[i + 1])
  }

  ghost predicate Link(keys: Keys, verify: Verifier, id: KeyId, signer: KeyId)
  {
    && id in keys && signer in keys
    && var k := keys[id];
    && k.trust.Trusted? && 0 <= k.newest < |k.certs| && k.certs[k.newest].caKeyId == signer
    && Confers(keys, verify, id, k.certs[k.newest])
    && k.scope == Granted(keys[signer].scope, k.certs[k.newest].scope)
  }

  /** Property `p` holds of every certificate in use along the chain. */
  ghost predicate Along(keys: Keys, path: seq<KeyId>, p: Cert -> bool)
  {
    |path| > 1 ==>
      && path[0] in keys && 0 <= keys[path[0]].newest < |keys[path[0]].certs|
      && p(keys[path[0]].certs[keys[path[0]].newest])
      && Along(keys, path[1..], p)
  }

  ghost function Height(keys: Keys, rank: Rank, id: KeyId): nat
  {
    if id in keys && !keys[id].trust.IsTerminal() && id in rank then rank[id] + 1 else 0
  }

  /** Every trusted key has a finite chain of verified certificates to the hardcoded root,
      whether or not certificates sign each other in circles. */
  lemma {:induction false} TrustHasChain(keys: Keys, verify: Verifier, rank: Rank, id: KeyId) returns (path: seq<KeyId>)
    requires KeysOk(keys) && Evaluated(keys, verify, rank)
    requires id in keys && keys[id].trust.IsTrusted()
    ensures Chain(keys, verify, path) && path[0] == id
    decreases Height(keys, rank, id)
  {
    if keys[id].trust.Hardcoded? {
      path := [id];
    } else {
      var k := keys[id];
      var c := k.certs[k.newest];
      assert Counts(keys, verify, rank, id, c);
      var rest := TrustHasChain(keys, verify, rank, c.caKeyId);
      path := [id] + rest;
      assert Link(keys, verify, id, rest[0]);
    }
  }

  lemma {:induction false} ChainTail(keys: Keys, verify: Verifier, path: seq<KeyId>)
    requires Chain(keys, verify, path) && |path| > 1
    ensures Chain(keys, verify, path[1..]) && Link(keys, verify, path[0], path[1])
  {
    var rest := path[1..];
    forall i | 0 <= i < |rest| - 1
      ensures Link(keys, verify, rest[i], rest[i + 1])
    {
      assert Link(keys, verify, path[i + 1], path[i + 2]);
    }
  }

  /** Some key is trusted if and only if there is a hardcoded root. */
  lemma {:induction false} TrustNeedsRoot(keys: Keys, verify: Verifier, rank: Rank)
    requires KeysOk(keys) && Evaluated(keys, verify, rank)
    ensures (exists id :: id in keys && keys[id].trust.IsTrusted()) <==> (exists id :: id in keys && keys[id].trust.Hardcoded?)
  {
    hide Evaluated, KeysOk, Chain;
    if exists id :: id in keys && keys[id].trust.IsTrusted() {
      var id :| id in keys && keys[id].trust.IsTrusted();
      var path := TrustHasChain(keys, verify, rank, id);
      ChainEnds(keys, verify, path);
    }
    if exists id :: id in keys && keys[id].trust.Hardcoded? {
      var id :| id in keys && keys[id].trust.Hardcoded?;
      assert keys[id].trust.IsTrusted();
    }
  }

  lemma {:induction false} ChainEnds(keys: Keys, verify: Verifier, path: seq<KeyId>)
    requires Chain(keys, verify, path)
    ensures path != [] && path[|path| - 1] in keys && keys[path[|path| - 1]].trust.Hardcoded?
  {
    hide Link;
  }

  /** The rights of a trusted key are what all certificates on its chain allow, no less and no
      more. */
  lemma {:induction false} ChainGrants(keys: Keys, verify: Verifier, path: seq<KeyId>, x: int)
    requires KeysOk(keys) && Chain(keys, verify, path) && x != INVALID_ITEM
    ensures Has(keys[path[0]].scope.apps, x) <==> Along(keys, path, (c: Cert) => Has(c.scope.apps, x))
    ensures Has(keys[path[0]].scope.pops, x) <==> Along(keys, path, (c: Cert) => Has(c.scope.pops, x))
    decreases |path|
  {
    AllOk(keys, path[0]);
    if |path| > 1 {
      ChainTail(keys, verify, path);
      ChainGrants(keys, verify, path[1..], x);
      var c, s := keys[path[0]].certs[keys[path[0]].newest], keys[path[1]].scope;
      assert KeyOk(keys[path[1]]);
      IntersectionIsMeet(s.apps, c.scope.apps);
      IntersectionIsMeet(s.pops, c.scope.pops);
    }
  }

  /** A trusted key expires with the first certificate of its chain. */
  lemma {:induction false} ChainExpires(keys: Keys, verify: Verifier, path: seq<KeyId>, time: int)
    requires KeysOk(keys) && Chain(keys, verify, path) && time <= TIME_MAX
    ensures time <= keys[path[0]].scope.expiry <==> Along(keys, path, (c: Cert) => time <= c.scope.expiry)
    decreases |path|
  {
    AllOk(keys, path[0]);
    if |path| > 1 {
      ChainTail(keys, verify, path);
      ChainExpires(keys, verify, path[1..], time);
    }
  }

  // --- Exactness ------------------------------------------------------------------------

  /** Two versions of a store that were given the same certificates and revocations. */
  ghost predicate SameInput(a: Keys, b: Keys)
  {
    && a.Keys == b.Keys
    && forall id :: id in a ==>
         && a[id].certs == b[id].certs && a[id].publicKey == b[id].publicKey
         && a[id].trust.Revoked? == b[id].trust.Revoked? && a[id].trust.Hardcoded? == b[id].trust.Hardcoded?
  }

  ghost function HardcodedKeys(keys: Keys): set<KeyId>
  {
    set id | id in keys && keys[id].trust.Hardcoded?
  }

  /** Only keys that a hardcoded key vouches for, through any number of signatures, are trusted. */
  lemma {:induction false} TrustedIsAnchored(keys: Keys, verify: Verifier, rank: Rank, id: KeyId)
    requires KeysOk(keys) && Evaluated(keys, verify, rank) && id in keys && keys[id].trust.Trusted?
    ensures Anchored(SignedBy(keys), HardcodedKeys(keys), id)
    decreases Height(keys, rank, id)
  {
    var g, roots := SignedBy(keys), HardcodedKeys(keys);
    var s := SignerInUse(keys, verify, rank, id);
    hide Anchored;
    if s in roots {
      AnchoredByRoot(g, roots, s, id);
    } else {
      TrustedIsAnchored(keys, verify, rank, s);
      AnchoredBySigner(g, roots, s, id);
    }
  }

  lemma {:induction false} SignerInUse(keys: Keys, verify: Verifier, rank: Rank, id: KeyId) returns (s: KeyId)
    requires Evaluated(keys, verify, rank) && id in keys && keys[id].trust.Trusted?
    ensures id in SignedBy(keys) && s in SignedBy(keys)[id] && s in keys && keys[s].trust.IsTrusted()
    ensures Height(keys, rank, s) < Height(keys, rank, id)
  {
    var k := keys[id];
    var c := k.certs[k.newest];
    assert Counts(keys, verify, rank, id, c);
    s := c.caKeyId;
    assert SignedBy(keys)[id][k.newest] == s;
  }

  /** Where signatures do not run in circles among the keys that a hardcoded key vouches for, the
      final trust, scope and certificate of every key are determined by the certificates and
      revocations alone. */
  lemma {:induction false} TrustIsDetermined(a: Keys, b: Keys, verify: Verifier, rankA: Rank, rankB: Rank,
                                             depth: KeyId -> nat, id: KeyId)
    requires SameInput(a, b) && KeysOk(a) && KeysOk(b) && Evaluated(a, verify, rankA) && Evaluated(b, verify, rankB)
    requires Acyclic(SignedBy(a), AnchoredKeys(SignedBy(a), HardcodedKeys(a)), depth)
    requires forall i :: i in a && !a[i].trust.IsTerminal() ==> Exact(a, verify, i) && Exact(b, verify, i)
    requires id in a
    ensures SameTrust(a, b, id)
    decreases if a[id].trust.IsTerminal() then 0 else depth(id) + 1
  {
    if !a[id].trust.IsTerminal() {
      forall c | c in a[id].certs
        ensures Confers(a, verify, id, c) == Confers(b, verify, id, c)
        ensures Confers(a, verify, id, c) ==> a[c.caKeyId].scope == b[c.caKeyId].scope
      {
        if c.caKeyId in a && c.caKeyId != id && (a[c.caKeyId].trust.IsTrusted() || b[c.caKeyId].trust.IsTrusted()) {
          if !a[c.caKeyId].trust.IsTerminal() {
            assert c.caKeyId in SignedBy(a)[id];
            EitherIsAnchored(a, b, verify, rankA, rankB, c.caKeyId);
          }
          TrustIsDetermined(a, b, verify, rankA, rankB, depth, c.caKeyId);
          SameSigner(a, b, verify, id, c);
        }
      }
      SameFollows(a, b, a[id], b[id], c => Confers(a, verify, id, c), c => Confers(b, verify, id, c));
    }
  }

  lemma {:induction false} EitherIsAnchored(a: Keys, b: Keys, verify: Verifier, rankA: Rank, rankB: Rank, id: KeyId)
    requires SameInput(a, b) && KeysOk(a) && KeysOk(b) && Evaluated(a, verify, rankA) && Evaluated(b, verify, rankB)
    requires id in a && (a[id].trust.Trusted? || b[id].trust.Trusted?)
    ensures id in AnchoredKeys(SignedBy(a), HardcodedKeys(a))
  {
    hide Anchored, Evaluated, KeyOk;
    SameHardcoded(a, b);
    SameGraph(a, b);
    if a[id].trust.Trusted? {
      TrustedIsAnchored(a, verify, rankA, id);
    } else {
      TrustedIsAnchored(b, verify, rankB, id);
    }
  }

  lemma {:induction false} SameHardcoded(a: Keys, b: Keys)
    requires SameInput(a, b)
    ensures HardcodedKeys(a) == HardcodedKeys(b)
  {
    assert forall id :: id in HardcodedKeys(a) <==> id in HardcodedKeys(b);
  }

  /** Certificates and revocations alone make the graph. */
  lemma {:induction false} SameGraph(a: Keys, b: Keys)
    requires SameInput(a, b)
    ensures SignedBy(a) == SignedBy(b)
  {
    var g, h := SignedBy(a), SignedBy(b);
    assert forall id :: id in g <==> id in h;
    assert forall id :: id in g ==> g[id] == h[id];
  }

  /** The keys agree about `id`. Scope and certificate of terminal keys are not used. */
  ghost predicate SameTrust(a: Keys, b: Keys, id: KeyId)
  {
    && id in a && id in b && a[id].trust == b[id].trust
    && (!a[id].trust.IsTerminal() ==> a[id].newest == b[id].newest && a[id].scope == b[id].scope)
  }

  lemma {:induction false} SameSigner(a: Keys, b: Keys, verify: Verifier, id: KeyId, c: Cert)
    requires KeysOk(a) && KeysOk(b) && SameInput(a, b) && SameTrust(a, b, c.caKeyId)
    ensures Confers(a, verify, id, c) == Confers(b, verify, id, c)
    ensures Confers(a, verify, id, c) ==> a[c.caKeyId].scope == b[c.caKeyId].scope
  {
    assert KeyOk(a[c.caKeyId]) && KeyOk(b[c.caKeyId]);
  }

  /** On every store, circular or not: keys that were finished in the same order have the same
      trust, scope and certificate. */
  lemma {:induction false} SameOrderSameTrust(a: Keys, b: Keys, verify: Verifier, rank: Rank, id: KeyId)
    requires SameInput(a, b) && KeysOk(a) && KeysOk(b)
    requires Evaluated(a, verify, rank) && Evaluated(b, verify, rank)
    requires id in a
    ensures SameTrust(a, b, id)
    decreases Height(a, rank, id)
  {
    if !a[id].trust.IsTerminal() {
      forall c | c in a[id].certs
        ensures Counts(a, verify, rank, id, c) == Counts(b, verify, rank, id, c)
        ensures Counts(a, verify, rank, id, c) ==> a[c.caKeyId].scope == b[c.caKeyId].scope
      {
        assert Before(a, rank, c.caKeyId, id) == Before(b, rank, c.caKeyId, id);
        if Before(a, rank, c.caKeyId, id) {
          SameOrderSameTrust(a, b, verify, rank, c.caKeyId);
          SameSigner(a, b, verify, id, c);
        }
      }
      SameFollows(a, b, a[id], b[id], c => Counts(a, verify, rank, id, c), c => Counts(b, verify, rank, id, c));
    }
  }

  lemma {:induction false} SameFollows(a: Keys, b: Keys, k: Key, l: Key, p: Cert -> bool, q: Cert -> bool)
    requires k.certs == l.certs && Follows(a, k, p) && Follows(b, l, q)
    requires forall c :: c in k.certs ==> p(c) == q(c)
    requires forall c :: c in k.certs && p(c) ==> c.caKeyId in a && c.caKeyId in b && a[c.caKeyId].scope == b[c.caKeyId].scope
    ensures k.trust == l.trust && k.newest == l.newest && k.scope == l.scope
  {
    if exists j :: 0 <= j < |k.certs| && p(k.certs[j]) {
      var j :| 0 <= j < |k.certs| && p(k.certs[j]);
      assert q(l.certs[j]);
    }
  }
}
