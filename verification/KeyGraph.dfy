/** Which keys sign which, and the order in which a depth-first evaluation finishes them. */
module KeyGraph {

  type KeyId = int

  /** The signers of every key that is evaluated. Keys whose trust is fixed have no entry. */
  type Graph = map<KeyId, seq<KeyId>>

  /** The keys that are finished after `id` was visited. A visit ends at keys that have no entry,
      are being worked on, or are finished; otherwise the signers are visited first. */
  function Visit(g: Graph, working: set<KeyId>, done: seq<KeyId>, id: KeyId): (after: seq<KeyId>)
    ensures done <= after
    decreases g.Keys - working, 0
  {
    if id !in g || id in working || id in done then done
    else
      assert g.Keys - (working + {id}) < g.Keys - working by {
        assert id in g.Keys - working;
      }
      VisitSigners(g, working + {id}, done, g[id]) + [id]
  }

  function VisitSigners(g: Graph, working: set<KeyId>, done: seq<KeyId>, signers: seq<KeyId>): (after: seq<KeyId>)
    ensures done <= after
    decreases g.Keys - working, |signers| + 1
  {
    if signers == [] then done
    else VisitSigners(g, working, Visit(g, working, done, signers[0]), signers[1..])
  }

  /** The finishing order when keys are visited in the given order. */
  function VisitAll(g: Graph, done: seq<KeyId>, order: seq<KeyId>): (after: seq<KeyId>)
    ensures done <= after
    decreases |order|
  {
    if order == [] then done else VisitAll(g, Visit(g, {}, done, order[0]), order[1..])
  }

  ghost predicate Distinct(done: seq<KeyId>)
  {
    forall i, j :: 0 <= i < j < |done| ==> done[i] != done[j]
  }

  /** Only keys of the graph are finished, none twice, and none that is being worked on. */
  ghost predicate Proper(g: Graph, working: set<KeyId>, done: seq<KeyId>)
  {
    Distinct(done) && forall id :: id in done ==> id in g && id !in working
  }

  lemma {:induction false} VisitIsProper(g: Graph, working: set<KeyId>, done: seq<KeyId>, id: KeyId)
    requires Proper(g, working, done)
    ensures Proper(g, working, Visit(g, working, done, id))
    ensures id in g && id !in working ==> id in Visit(g, working, done, id)
    decreases g.Keys - working, 0
  {
    if id in g && id !in working && id !in done {
      assert id in g.Keys - working;
      VisitSignersIsProper(g, working + {id}, done, g[id]);
    }
  }

  lemma {:induction false} VisitSignersIsProper(g: Graph, working: set<KeyId>, done: seq<KeyId>, signers: seq<KeyId>)
    requires Proper(g, working, done)
    ensures Proper(g, working, VisitSigners(g, working, done, signers))
    decreases g.Keys - working, |signers| + 1
  {
    if signers != [] {
      VisitIsProper(g, working, done, signers[0]);
      VisitSignersIsProper(g, working, Visit(g, working, done, signers[0]), signers[1..]);
    }
  }

  lemma {:induction false} VisitAllIsProper(g: Graph, done: seq<KeyId>, order: seq<KeyId>)
    requires Proper(g, {}, done)
    ensures Proper(g, {}, VisitAll(g, done, order))
    ensures forall id :: id in order && id in g ==> id in VisitAll(g, done, order)
    decreases |order|
  {
    if order != [] {
      VisitIsProper(g, {}, done, order[0]);
      VisitAllIsProper(g, Visit(g, {}, done, order[0]), order[1..]);
    }
  }

  // --- Circles --------------------------------------------------------------------------

  /** A set of keys that contains every key with a signer in it. */
  ghost predicate Closed(g: Graph, live: set<KeyId>)
  {
    forall id, s :: id in g && s in g[id] && s in live ==> id in live
  }

  /** Following signatures to keys in `live`, apart from self-signed certificates, always leads to
      smaller depth. */
  ghost predicate Acyclic(g: Graph, live: set<KeyId>, depth: KeyId -> nat)
  {
    forall id, s :: id in g && s in g[id] && s in g && s != id && s in live ==> depth(s) < depth(id)
  }

  ghost predicate NoCirclesAmong(g: Graph, live: set<KeyId>)
  {
    exists depth: KeyId -> nat :: Acyclic(g, live, depth)
  }

  ghost predicate NoCircles(g: Graph) { NoCirclesAmong(g, g.Keys) }

  /** Every key is finished after all its signers in `live`. */
  ghost predicate SignersFirst(g: Graph, live: set<KeyId>, done: seq<KeyId>)
  {
    forall i, s :: 0 <= i < |done| && done[i] in g && s in g[done[i]] && s in g && s != done[i] && s in live ==>
                     s in done[..i]
  }

  /** Keys of `live` that are being worked on are further from the root than `id`. */
  ghost predicate Above(working: set<KeyId>, live: set<KeyId>, depth: KeyId -> nat, id: KeyId)
  {
    forall w :: w in working && w in live ==> depth(id) < depth(w)
  }

  lemma {:induction false} VisitKeepsOrder(g: Graph, live: set<KeyId>, working: set<KeyId>, done: seq<KeyId>,
                                           id: KeyId, depth: KeyId -> nat)
    requires Closed(g, live) && Acyclic(g, live, depth) && Proper(g, working, done) && SignersFirst(g, live, done)
    requires id in g && id in live ==> Above(working, live, depth, id)
    ensures SignersFirst(g, live, Visit(g, working, done, id))
    ensures id in g && id in live ==> id in Visit(g, working, done, id)
    decreases g.Keys - working, 0
  {
    if id in g && id !in working && id !in done {
      assert id in g.Keys - working;
      VisitSignersKeepsOrder(g, live, working + {id}, done, g[id], id, depth);
      var before := VisitSigners(g, working + {id}, done, g[id]);
      assert forall i :: 0 <= i < |before| ==> (before + [id])[..i] == before[..i];
      assert (before + [id])[..|before|] == before;
    }
  }

  lemma {:induction false} VisitSignersKeepsOrder(g: Graph, live: set<KeyId>, working: set<KeyId>, done: seq<KeyId>,
                                                  signers: seq<KeyId>, id: KeyId, depth: KeyId -> nat)
    requires Closed(g, live) && Acyclic(g, live, depth) && Proper(g, working, done) && SignersFirst(g, live, done)
    requires id in g && id in working
    requires id in live ==> forall w :: w in working && w in live && w != id ==> depth(id) < depth(w)
    requires forall s :: s in signers ==> s in g[id]
    ensures SignersFirst(g, live, VisitSigners(g, working, done, signers))
    ensures forall s :: s in signers && s in g && s != id && s in live ==> s in VisitSigners(g, working, done, signers)
    decreases g.Keys - working, |signers| + 1
  {
    if signers != [] {
      var s := signers[0];
      var next := Visit(g, working, done, s);
      VisitIsProper(g, working, done, s);
      if s != id {
        VisitKeepsOrder(g, live, working, done, s, depth);
      }
      VisitSignersKeepsOrder(g, live, working, next, signers[1..], id, depth);
      assert forall t :: t in signers ==> t == s || t in signers[1..];
    }
  }

  lemma {:induction false} VisitAllKeepsOrder(g: Graph, live: set<KeyId>, done: seq<KeyId>, order: seq<KeyId>,
                                              depth: KeyId -> nat)
    requires Closed(g, live) && Acyclic(g, live, depth) && Proper(g, {}, done) && SignersFirst(g, live, done)
    ensures SignersFirst(g, live, VisitAll(g, done, order))
    decreases |order|
  {
    if order != [] {
      VisitIsProper(g, {}, done, order[0]);
      VisitKeepsOrder(g, live, {}, done, order[0], depth);
      VisitAllKeepsOrder(g, live, Visit(g, {}, done, order[0]), order[1..], depth);
    }
  }

  ghost function IndexIn(done: seq<KeyId>, id: KeyId): nat
  {
    if id in done then
      var i :| 0 <= i < |done| && done[i] == id;
      i
    else 0
  }

  /** An order that finishes every key after its signers in `live` shows that there are no circles. */
  lemma {:induction false} OrderIsDepth(g: Graph, live: set<KeyId>, done: seq<KeyId>)
    requires Distinct(done) && SignersFirst(g, live, done) && forall id :: id in g ==> id in done
    ensures Acyclic(g, live, id => IndexIn(done, id))
  {
    forall id, s | id in g && s in g[id] && s in g && s != id && s in live
      ensures IndexIn(done, s) < IndexIn(done, id)
    {
      var i := IndexIn(done, id);
      assert s in done[..i];
      var j :| 0 <= j < i && done[j] == s;
      assert IndexIn(done, s) == j;
    }
  }

  /** Whatever the visiting order: all keys are finished after their signers in `live` if and only if
      signatures do not run in circles there. */
  lemma {:induction false} SignersFirstIff(g: Graph, live: set<KeyId>, order: seq<KeyId>)
    requires Closed(g, live) && forall id :: id in g ==> id in order
    ensures SignersFirst(g, live, VisitAll(g, [], order)) <==> NoCirclesAmong(g, live)
  {
    var done := VisitAll(g, [], order);
    VisitAllIsProper(g, [], order);
    if SignersFirst(g, live, done) {
      OrderIsDepth(g, live, done);
    }
    if NoCirclesAmong(g, live) {
      var depth: KeyId -> nat :| Acyclic(g, live, depth);
      VisitAllKeepsOrder(g, live, [], order, depth);
    }
  }

  /** `s` is finished before `id`. */
  ghost predicate FinishedBefore(done: seq<KeyId>, s: KeyId, id: KeyId)
  {
    exists i, j :: 0 <= i < j < |done| && done[i] == s && done[j] == id
  }

  /** The key that is visited first is finished after its signers. */
  lemma {:induction false} FirstVisited(g: Graph, order: seq<KeyId>, id: KeyId, s: KeyId)
    requires order != [] && order[0] == id && id in g && s in g[id] && s in g && s != id
    ensures FinishedBefore(VisitAll(g, [], order), s, id)
  {
    var first := VisitSigners(g, {id}, [], g[id]);
    SignersAreFinished(g, {id}, [], g[id]);
    var i :| 0 <= i < |first| && first[i] == s;
    assert {} + {id} == {id};
    assert Visit(g, {}, [], id) == first + [id];
    var done := VisitAll(g, [], order);
    assert first + [id] <= done;
    assert done[i] == s && done[|first|] == id;
  }

  lemma {:induction false} SignersAreFinished(g: Graph, working: set<KeyId>, done: seq<KeyId>, signers: seq<KeyId>)
    requires Proper(g, working, done)
    ensures forall s :: s in signers && s in g && s !in working ==> s in VisitSigners(g, working, done, signers)
    decreases |signers|
  {
    if signers != [] {
      VisitIsProper(g, working, done, signers[0]);
      SignersAreFinished(g, working, Visit(g, working, done, signers[0]), signers[1..]);
      assert forall t :: t in signers ==> t == signers[0] || t in signers[1..];
    }
  }

  /** Every visiting order finishes some key before one of its signers when signatures run in
      circles; an order that begins with that key finishes the two the other way round. */
  lemma {:induction false} OrdersDisagree(g: Graph, live: set<KeyId>, order: seq<KeyId>) returns (id: KeyId, s: KeyId)
    requires Closed(g, live) && !NoCirclesAmong(g, live) && forall k :: k in g ==> k in order
    ensures id in g && s in g && s in g[id] && s != id && s in live
    ensures FinishedBefore(VisitAll(g, [], order), id, s)
    ensures forall other: seq<KeyId> :: other != [] && other[0] == id ==> FinishedBefore(VisitAll(g, [], other), s, id)
  {
    var done := VisitAll(g, [], order);
    SignersFirstIff(g, live, order);
    VisitAllIsProper(g, [], order);
    var i, t :| 0 <= i < |done| && done[i] in g && t in g[done[i]] && t in g && t != done[i] && t in live && t !in done[..i];
    id, s := done[i], t;
    var j :| 0 <= j < |done| && done[j] == s;
    assert forall k :: 0 <= k < i ==> done[..i][k] == done[k];
    forall other: seq<KeyId> | other != [] && other[0] == id
      ensures FinishedBefore(VisitAll(g, [], other), s, id)
    {
      FirstVisited(g, other, id, s);
    }
  }

  // --- Anchors --------------------------------------------------------------------------

  /** A chain of signatures inside the graph whose first key is signed by one of the roots. */
  ghost predicate AnchorPath(g: Graph, roots: set<KeyId>, path: seq<KeyId>)
  {
    && path != []
    && (forall i :: 0 <= i < |path| ==> path[i] in g)
    && (exists r :: r in g[path[0]] && r in roots)
    && forall i :: 0 < i < |path| ==> path[i - 1] in g[path[i]]
  }

  /** A chain of signatures leads from a root to the key. */
  ghost predicate Anchored(g: Graph, roots: set<KeyId>, id: KeyId)
  {
    exists path :: AnchorPath(g, roots, path) && path[|path| - 1] == id
  }

  ghost function AnchoredKeys(g: Graph, roots: set<KeyId>): set<KeyId>
  {
    set id | id in g && Anchored(g, roots, id)
  }

  lemma {:induction false} PathMore(g: Graph, roots: set<KeyId>, path: seq<KeyId>, id: KeyId)
    requires AnchorPath(g, roots, path) && id in g && path[|path| - 1] in g[id]
    ensures AnchorPath(g, roots, path + [id])
  {}

  lemma {:induction false} AnchoredByRoot(g: Graph, roots: set<KeyId>, r: KeyId, id: KeyId)
    requires id in g && r in g[id] && r in roots
    ensures Anchored(g, roots, id)
  {
    var path := [id];
    assert r in g[path[0]];
    assert AnchorPath(g, roots, path) && path[|path| - 1] == id;
  }

  /** What an anchored key signs is anchored. */
  lemma {:induction false} AnchoredBySigner(g: Graph, roots: set<KeyId>, s: KeyId, id: KeyId)
    requires id in g && s in g[id] && Anchored(g, roots, s)
    ensures Anchored(g, roots, id)
  {
    var path :| AnchorPath(g, roots, path) && path[|path| - 1] == s;
    PathMore(g, roots, path, id);
    var more := path + [id];
    assert more[|more| - 1] == id;
  }

  lemma {:induction false} AnchoredIsClosed(g: Graph, roots: set<KeyId>)
    ensures Closed(g, AnchoredKeys(g, roots))
  {
    forall id, s | id in g && s in g[id] && s in AnchoredKeys(g, roots)
      ensures id in AnchoredKeys(g, roots)
    {
      AnchoredBySigner(g, roots, s, id);
    }
  }

  /** The last signature of the chain is violated: the last key is finished before its signer. */
  ghost predicate Breaks(g: Graph, roots: set<KeyId>, ids: set<KeyId>, path: seq<KeyId>, order: seq<KeyId>)
  {
    && AnchorPath(g, roots, path) && |path| >= 2 && path[|path| - 2] != path[|path| - 1]
    && Lists(order, ids)
    && FinishedBefore(VisitAll(g, [], order), path[|path| - 1], path[|path| - 2])
  }

  /** The order lists exactly the given keys, each once. */
  ghost predicate Lists(order: seq<KeyId>, ids: set<KeyId>)
  {
    Distinct(order) && forall id :: id in order <==> id in ids
  }

  /** Nothing shorter than `n` breaks, in any order. */
  ghost predicate NoneShorter(g: Graph, roots: set<KeyId>, ids: set<KeyId>, n: nat)
  {
    forall path, order :: |path| < n ==> !Breaks(g, roots, ids, path, order)
  }

  lemma {:induction false} ShortestBreaks(g: Graph, roots: set<KeyId>, ids: set<KeyId>, path: seq<KeyId>, order: seq<KeyId>)
    returns (shortest: seq<KeyId>, other: seq<KeyId>)
    requires Breaks(g, roots, ids, path, order)
    ensures Breaks(g, roots, ids, shortest, other) && NoneShorter(g, roots, ids, |shortest|)
    decreases |path|
  {
    hide Breaks;
    if NoneShorter(g, roots, ids, |path|) {
      shortest, other := path, order;
    } else {
      var p, o :| |p| < |path| && Breaks(g, roots, ids, p, o);
      shortest, other := ShortestBreaks(g, roots, ids, p, o);
    }
  }

  /** Where anchored keys run in a circle, some chain breaks in every order. */
  lemma {:induction false} SomethingBreaks(g: Graph, roots: set<KeyId>, ids: set<KeyId>, order: seq<KeyId>)
    returns (path: seq<KeyId>)
    requires !NoCirclesAmong(g, AnchoredKeys(g, roots)) && g.Keys <= ids && Lists(order, ids)
    ensures Breaks(g, roots, ids, path, order)
  {
    AnchoredIsClosed(g, roots);
    assert forall k :: k in g ==> k in g.Keys;
    var id, s := OrdersDisagree(g, AnchoredKeys(g, roots), order);
    var chain :| AnchorPath(g, roots, chain) && chain[|chain| - 1] == s;
    PathMore(g, roots, chain, id);
    path := chain + [id];
    assert path[|path| - 2] == s && path[|path| - 1] == id;
  }

  lemma {:induction false} PrefixIsPath(g: Graph, roots: set<KeyId>, path: seq<KeyId>, n: nat)
    requires AnchorPath(g, roots, path) && 0 < n <= |path|
    ensures AnchorPath(g, roots, path[..n])
  {}

  /** Two keys are finished in one order or the other. */
  lemma {:induction false} OneIsFirst(g: Graph, order: seq<KeyId>, a: KeyId, b: KeyId)
    requires a in g && b in g && a in order && b in order && a != b
    ensures FinishedBefore(VisitAll(g, [], order), a, b) || FinishedBefore(VisitAll(g, [], order), b, a)
  {
    var done := VisitAll(g, [], order);
    VisitAllIsProper(g, [], order);
    var i :| 0 <= i < |done| && done[i] == a;
    var j :| 0 <= j < |done| && done[j] == b;
  }

  /** In a shortest chain that breaks, only the last signature is ever violated. */
  lemma {:induction false} InnerHolds(g: Graph, roots: set<KeyId>, ids: set<KeyId>, path: seq<KeyId>, order: seq<KeyId>, i: nat)
    requires AnchorPath(g, roots, path) && NoneShorter(g, roots, ids, |path|) && g.Keys <= ids && Lists(order, ids)
    requires 0 < i < |path| - 1 && path[i - 1] != path[i]
    ensures FinishedBefore(VisitAll(g, [], order), path[i - 1], path[i])
  {
    var start := path[..i + 1];
    PrefixIsPath(g, roots, path, i + 1);
    assert path[i - 1] in g.Keys && path[i] in g.Keys;
    OneIsFirst(g, order, path[i - 1], path[i]);
    assert !Breaks(g, roots, ids, start, order);
    assert start[|start| - 1] == path[i] && start[|start| - 2] == path[i - 1];
  }

  // --- Orders ---------------------------------------------------------------------------

  /** The order that visits `id` first. */
  ghost function MoveToFront(order: seq<KeyId>, id: KeyId): (other: seq<KeyId>)
    requires Distinct(order) && id in order
    ensures Distinct(other) && other != [] && other[0] == id && forall k :: k in other <==> k in order
  {
    var i :| 0 <= i < |order| && order[i] == id;
    MovedIsSame(order, i);
    [id] + order[..i] + order[i + 1..]
  }

  lemma {:induction false} MovedIsSame(order: seq<KeyId>, i: nat)
    requires Distinct(order) && i < |order|
    ensures var other := [order[i]] + order[..i] + order[i + 1..];
            Distinct(other) && forall k :: k in other <==> k in order
  {
    var other := [order[i]] + order[..i] + order[i + 1..];
    assert |other| == |order|;
    assert forall j :: 0 <= j < |other| ==> other[j] == order[if j == 0 then i else if j <= i then j - 1 else j];
    forall k | k in order
      ensures k in other
    {
      var j :| 0 <= j < |order| && order[j] == k;
      assert other[if j < i then j + 1 else if j == i then 0 else j] == k;
    }
  }

  ghost function SomeOrder(ids: set<KeyId>): (order: seq<KeyId>)
    ensures Lists(order, ids)
    decreases |ids|
  {
    if exists id :: id in ids then
      var id :| id in ids;
      SomeOrder(ids - {id}) + [id]
    else []
  }

  // --- Ranks ----------------------------------------------------------------------------

  /** When each key was finished. */
  type Rank = map<KeyId, nat>

  function RankOf(done: seq<KeyId>): Rank
    decreases |done|
  {
    if done == [] then map[] else RankOf(done[..|done| - 1])[done[|done| - 1] := |done| - 1]
  }

  lemma {:induction false} RankIs(done: seq<KeyId>)
    requires Distinct(done)
    ensures forall id :: id in RankOf(done) <==> id in done
    ensures forall i :: 0 <= i < |done| ==> RankOf(done)[done[i]] == i
    decreases |done|
  {
    if done != [] {
      var before := done[..|done| - 1];
      RankIs(before);
      assert done == before + [done[|done| - 1]];
    }
  }
}
