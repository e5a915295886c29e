/** The envelopes of a response, found breadth first: each once, none missed down to the depth bound. */
module ProjectionSources {
  import opened AgentProjection

  datatype Queued = Queued(env: Envelope, depth: nat)

  /** The nested envelope under `key`. */
  ghost predicate HasChild(p: Envelope, key: Key, known: Snapshot) {
    p in known && key in known[p] && EnvelopeIndex(key) < 8 && known[p][key].VMap?
  }

  /** `known` holds the whole response. */
  ghost predicate ChildrenKnown(known: Snapshot) {
    forall p, key | p in known && key in known[p] && HasChild(p, key, known) :: known[p][key].env in known
  }

  ghost predicate IsChild(p: Envelope, e: Envelope, known: Snapshot) {
    exists key :: HasChild(p, key, known) && known[p][key].env == e
  }

  /** `e` is `d` steps below `root`, along some path. */
  ghost predicate IsBelow(root: Envelope, e: Envelope, d: nat, known: Snapshot) {
    if d == 0 then e == root
    else exists p | p in known :: IsBelow(root, p, d - 1, known) && IsChild(p, e, known)
  }

  type Depths = map<Envelope, nat>

  ghost predicate Sound(root: Envelope, depths: Depths, queue: seq<Queued>, known: Snapshot) {
    && (forall e | e in depths :: e in known && depths[e] <= MAX_DEPTH && IsBelow(root, e, depths[e], known))
    && (forall k | 0 <= k < |queue| ::
          queue[k].depth <= MAX_DEPTH && queue[k].env in known && IsBelow(root, queue[k].env, queue[k].depth, known))
  }

  /** Breadth first: what waits is at the current level or one below it, in that order. */
  ghost predicate InOrder(depths: Depths, queue: seq<Queued>, level: nat) {
    && (forall e | e in depths :: depths[e] <= level)
    && (forall k | 0 <= k < |queue| :: level <= queue[k].depth <= level + 1)
    && (forall j, k | 0 <= j < k < |queue| :: queue[j].depth <= queue[k].depth)
  }

  /** `e` is found or waiting, no deeper than `d`. */
  ghost predicate Covered(e: Envelope, d: nat, depths: Depths, queue: seq<Queued>) {
    (e in depths && depths[e] <= d) || exists k :: 0 <= k < |queue| && queue[k].env == e && queue[k].depth <= d
  }

  /** The children under the first `i` keys of `p` are covered. */
  ghost predicate ChildrenCovered(p: Envelope, d: nat, i: nat, depths: Depths, queue: seq<Queued>, known: Snapshot) {
    p in known && forall key | HasChild(p, key, known) && EnvelopeIndex(key) < i ::
      Covered(known[p][key].env, d + 1, depths, queue)
  }

  ghost predicate AllCovered(root: Envelope, depths: Depths, queue: seq<Queued>, known: Snapshot) {
    && Covered(root, 0, depths, queue)
    && forall p | p in depths && depths[p] < MAX_DEPTH :: ChildrenCovered(p, depths[p], 8, depths, queue, known)
  }

  lemma ChildIsCovered(p: Envelope, key: Key, d: nat, depths: Depths, known: Snapshot)
    requires HasChild(p, key, known) && ChildrenCovered(p, d, 8, depths, [], known)
    ensures known[p][key].env in depths && depths[known[p][key].env] <= d + 1
  {
    assert Covered(known[p][key].env, d + 1, depths, []);
  }

  lemma {:induction false} NoneMissed(root: Envelope, e: Envelope, d: nat, depths: Depths, known: Snapshot)
    requires AllCovered(root, depths, [], known)
    requires d <= MAX_DEPTH && IsBelow(root, e, d, known)
    ensures e in depths && depths[e] <= d
    decreases d
  {
    if d > 0 {
      var p :| p in known && IsBelow(root, p, d - 1, known) && IsChild(p, e, known);
      NoneMissed(root, p, d - 1, depths, known);
      var key :| HasChild(p, key, known) && known[p][key].env == e;
      assert ChildrenCovered(p, depths[p], 8, depths, [], known);
      ChildIsCovered(p, key, depths[p], depths, known);
    }
  }

  lemma CoveredAfterPop(e: Envelope, d: nat, depths: Depths, queue: seq<Queued>, depths': Depths)
    requires |queue| > 0 && Covered(e, d, depths, queue)
    requires queue[0].env in depths' && depths'[queue[0].env] <= queue[0].depth
    requires forall x | x in depths :: x in depths' && depths'[x] == depths[x]
    ensures Covered(e, d, depths', queue[1..])
  {
    if !(e in depths && depths[e] <= d) {
      var k :| 0 <= k < |queue| && queue[k].env == e && queue[k].depth <= d;
      if k > 0 {
        assert queue[1..][k - 1] == queue[k];
      }
    }
  }

  lemma CoveredAfterPush(e: Envelope, d: nat, depths: Depths, queue: seq<Queued>, more: seq<Queued>)
    requires Covered(e, d, depths, queue)
    ensures Covered(e, d, depths, queue + more)
  {
    if !(e in depths && depths[e] <= d) {
      var k :| 0 <= k < |queue| && queue[k].env == e && queue[k].depth <= d;
      assert (queue + more)[k] == queue[k];
    }
  }

  /** Everything covered stays covered when the head is taken off the queue and, if new, found. */
  lemma AllCoveredAfterPop(root: Envelope, depths: Depths, queue: seq<Queued>, depths': Depths, known: Snapshot)
    requires |queue| > 0 && AllCovered(root, depths, queue, known)
    requires queue[0].env in depths' && depths'[queue[0].env] <= queue[0].depth
    requires forall x | x in depths :: x in depths' && depths'[x] == depths[x]
    ensures Covered(root, 0, depths', queue[1..])
    ensures forall p | p in depths && depths[p] < MAX_DEPTH ::
      ChildrenCovered(p, depths[p], 8, depths', queue[1..], known)
  {
    CoveredAfterPop(root, 0, depths, queue, depths');
    forall p, key | p in depths && depths[p] < MAX_DEPTH && p in known && key in known[p] && HasChild(p, key, known)
      ensures Covered(known[p][key].env, depths[p] + 1, depths', queue[1..])
    {
      assert ChildrenCovered(p, depths[p], 8, depths, queue, known);
      CoveredAfterPop(known[p][key].env, depths[p] + 1, depths, queue, depths');
    }
    assert forall p | p in depths && depths[p] < MAX_DEPTH :: ChildrenCovered(p, depths[p], 8, depths, queue, known);
  }

  lemma AllCoveredAfterPush(
      root: Envelope, but: Envelope, depths: Depths, queue: seq<Queued>, more: seq<Queued>, known: Snapshot)
    requires Covered(root, 0, depths, queue)
    requires forall p | p in depths && p != but && depths[p] < MAX_DEPTH ::
      ChildrenCovered(p, depths[p], 8, depths, queue, known)
    ensures Covered(root, 0, depths, queue + more)
    ensures forall p | p in depths && p != but && depths[p] < MAX_DEPTH ::
      ChildrenCovered(p, depths[p], 8, depths, queue + more, known)
  {
    CoveredAfterPush(root, 0, depths, queue, more);
    forall p, key | p in depths && p != but && depths[p] < MAX_DEPTH && p in known && key in known[p]
      && HasChild(p, key, known)
      ensures Covered(known[p][key].env, depths[p] + 1, depths, queue + more)
    {
      assert ChildrenCovered(p, depths[p], 8, depths, queue, known);
      CoveredAfterPush(known[p][key].env, depths[p] + 1, depths, queue, more);
    }
    assert forall p | p in depths && p != but && depths[p] < MAX_DEPTH ::
      ChildrenCovered(p, depths[p], 8, depths, queue, known);
  }

  /** The envelopes waiting behind one that was just found: those under its envelope keys. */
  method ChildrenOf(e: Envelope, depth: nat, ghost known: Snapshot) returns (more: seq<Queued>)
    requires Holds(known) && e in known && ChildrenKnown(known)
    ensures forall k | 0 <= k < |more| ::
      more[k].depth == depth + 1 && more[k].env in known && IsChild(e, more[k].env, known)
    ensures forall key | HasChild(e, key, known) :: exists k :: 0 <= k < |more| && more[k].env == known[e][key].env
  {
    more := [];
    for i := 0 to |ENVELOPE_KEYS|
      invariant forall k | 0 <= k < |more| ::
        more[k].depth == depth + 1 && more[k].env in known && IsChild(e, more[k].env, known)
      invariant forall key | HasChild(e, key, known) && EnvelopeIndex(key) < i ::
        exists k :: 0 <= k < |more| && more[k].env == known[e][key].env
    {
      var key := ENVELOPE_KEYS[i];
      EnvelopeKeyAt(i);
      ghost var before := more;
      if key in e.fields && e.fields[key].VMap? {
        assert HasChild(e, key, known) && IsChild(e, e.fields[key].env, known);
        more := more + [Queued(e.fields[key].env, depth + 1)];
        assert more[|before|].env == known[e][key].env;
      }
      forall other | HasChild(e, other, known) && EnvelopeIndex(other) < i + 1
        ensures exists k :: 0 <= k < |more| && more[k].env == known[e][other].env
      {
        if EnvelopeIndex(other) < i {
          var k :| 0 <= k < |before| && before[k].env == known[e][other].env;
          assert more[k] == before[k];
        } else {
          assert other == key;
        }
      }
    }
  }

  /** `sources` lists what is in `depths`, each once, outermost first. */
  ghost predicate Lists(sources: seq<Envelope>, depths: Depths) {
    && (forall e | e in depths :: e in sources)
    && (forall k | 0 <= k < |sources| :: sources[k] in depths)
    && (forall j, k | 0 <= j < k < |sources| :: sources[j] != sources[k] && depths[sources[j]] <= depths[sources[k]])
  }

  lemma ListsOneMore(sources: seq<Envelope>, depths: Depths, e: Envelope, d: nat)
    requires Lists(sources, depths) && e !in depths && forall x | x in depths :: depths[x] <= d
    ensures Lists(sources + [e], depths[e := d])
  {
    var more := sources + [e];
    forall x | x in depths[e := d] ensures x in more {
      if x == e {
        assert more[|sources|] == e;
      } else {
        var k :| 0 <= k < |sources| && sources[k] == x;
        assert more[k] == x;
      }
    }
  }

  /** The children of an envelope that was just found, put at the end of the queue. */
  lemma PushCoversChildren(e: Envelope, d: nat, depths: Depths, queue: seq<Queued>, more: seq<Queued>, known: Snapshot)
    requires e in known && forall k | 0 <= k < |more| :: more[k].depth == d + 1
    requires forall key | HasChild(e, key, known) :: exists k :: 0 <= k < |more| && more[k].env == known[e][key].env
    ensures ChildrenCovered(e, d, 8, depths, queue + more, known)
  {
    forall key | HasChild(e, key, known) ensures Covered(known[e][key].env, d + 1, depths, queue + more) {
      var k :| 0 <= k < |more| && more[k].env == known[e][key].env;
      assert (queue + more)[|queue| + k] == more[k];
    }
  }

  /** The state of the search: what is found and what waits. */
  ghost predicate Searching(
      root: Envelope, sources: seq<Envelope>, depths: Depths, queue: seq<Queued>, level: nat, known: Snapshot)
  {
    && Sound(root, depths, queue, known) && InOrder(depths, queue, level)
    && Lists(sources, depths) && AllCovered(root, depths, queue, known)
  }

  lemma PopKeepsSearching(
      root: Envelope, sources: seq<Envelope>, depths: Depths, queue: seq<Queued>, level: nat, known: Snapshot)
    requires Searching(root, sources, depths, queue, level, known) && |queue| > 0 && queue[0].env in depths
    ensures Searching(root, sources, depths, queue[1..], queue[0].depth, known)
  {
    AllCoveredAfterPop(root, depths, queue, depths, known);
  }

  lemma FindKeepsSound(root: Envelope, depths: Depths, queue: seq<Queued>, known: Snapshot, more: seq<Queued>)
    requires Sound(root, depths, queue, known) && |queue| > 0
    requires forall k | 0 <= k < |more| ::
      more[k].depth == queue[0].depth + 1 && more[k].env in known && IsChild(queue[0].env, more[k].env, known)
    requires queue[0].depth >= MAX_DEPTH ==> more == []
    ensures Sound(root, depths[queue[0].env := queue[0].depth], queue[1..] + more, known)
  {
    var e, d := queue[0].env, queue[0].depth;
    forall k | 0 <= k < |more| ensures IsBelow(root, more[k].env, d + 1, known) {
      assert IsBelow(root, e, d, known) && IsChild(e, more[k].env, known);
    }
  }

  lemma FindKeepsOrder(depths: Depths, queue: seq<Queued>, level: nat, more: seq<Queued>)
    requires InOrder(depths, queue, level) && |queue| > 0
    requires forall k | 0 <= k < |more| :: more[k].depth == queue[0].depth + 1
    ensures InOrder(depths[queue[0].env := queue[0].depth], queue[1..] + more, queue[0].depth)
  {
  }

  lemma FindKeepsSearching(
      root: Envelope, sources: seq<Envelope>, depths: Depths, queue: seq<Queued>, level: nat, known: Snapshot,
      more: seq<Queued>)
    requires Searching(root, sources, depths, queue, level, known) && |queue| > 0 && queue[0].env !in depths
    requires forall k | 0 <= k < |more| ::
      more[k].depth == queue[0].depth + 1 && more[k].env in known && IsChild(queue[0].env, more[k].env, known)
    requires queue[0].depth < MAX_DEPTH ==> forall key | HasChild(queue[0].env, key, known) ::
      exists k :: 0 <= k < |more| && more[k].env == known[queue[0].env][key].env
    requires queue[0].depth >= MAX_DEPTH ==> more == []
    ensures Searching(
      root, sources + [queue[0].env], depths[queue[0].env := queue[0].depth], queue[1..] + more, queue[0].depth, known)
  {
    var e, d := queue[0].env, queue[0].depth;
    var depths' := depths[e := d];
    ListsOneMore(sources, depths, e, d);
    AllCoveredAfterPop(root, depths, queue, depths', known);
    AllCoveredAfterPush(root, e, depths', queue[1..], more, known);
    if d < MAX_DEPTH {
      PushCoversChildren(e, d, depths', queue[1..], more, known);
    }
    FindKeepsSound(root, depths, queue, known, more);
    FindKeepsOrder(depths, queue, level, more);
  }

  /** Within the depth bound of the root. */
  ghost predicate IsWithinReach(root: Envelope, e: Envelope, known: Snapshot) {
    exists d: nat :: d <= MAX_DEPTH && IsBelow(root, e, d, known)
  }

  /** `e` is no further from the root than `f`. */
  ghost predicate NoFurther(root: Envelope, e: Envelope, f: Envelope, known: Snapshot) {
    forall d: nat | d <= MAX_DEPTH && IsBelow(root, f, d, known) ::
      exists c: nat :: c <= d && IsBelow(root, e, c, known)
  }

  /** What the finished search means for the list it made. */
  lemma SearchIsComplete(root: Envelope, sources: seq<Envelope>, depths: Depths, level: nat, known: Snapshot)
    requires Searching(root, sources, depths, [], level, known)
    ensures forall j, k | 0 <= j < k < |sources| ::
      sources[j] != sources[k] && NoFurther(root, sources[j], sources[k], known)
    ensures forall e | e in known :: e in sources <==> IsWithinReach(root, e, known)
    ensures forall e | e in sources :: e in known
  {
    forall e, d: nat | e in known && d <= MAX_DEPTH && IsBelow(root, e, d, known)
      ensures e in depths && depths[e] <= d
    {
      NoneMissed(root, e, d, depths, known);
    }
    forall j, k | 0 <= j < k < |sources| ensures NoFurther(root, sources[j], sources[k], known) {
      forall d: nat | d <= MAX_DEPTH && IsBelow(root, sources[k], d, known)
        ensures exists c: nat :: c <= d && IsBelow(root, sources[j], c, known)
      {
        assert depths[sources[j]] <= depths[sources[k]] <= d;
      }
    }
    forall e | e in sources ensures e in known && IsWithinReach(root, e, known) {
      assert e in depths && IsBelow(root, e, depths[e], known);
    }
  }

  /** The entries to queue for an envelope, none at the depth bound. */
  method Found(current: Queued, ghost known: Snapshot) returns (more: seq<Queued>)
    requires Holds(known) && current.env in known && ChildrenKnown(known)
    ensures forall k | 0 <= k < |more| ::
      more[k].depth == current.depth + 1 && more[k].env in known && IsChild(current.env, more[k].env, known)
    ensures current.depth < MAX_DEPTH ==> forall key | HasChild(current.env, key, known) ::
      exists k :: 0 <= k < |more| && more[k].env == known[current.env][key].env
    ensures current.depth >= MAX_DEPTH ==> more == []
  {
    more := [];
    if current.depth < MAX_DEPTH {
      more := ChildrenOf(current.env, current.depth, known);
    }
  }

  /**
    * Exactly the envelopes within five steps of the response, each once and nearest first. A seen
    * envelope is not searched again; breadth-first order is what makes its first depth its least one.
    */
  method FindProjectionSources(root: Envelope, ghost known: Snapshot) returns (sources: seq<Envelope>)
    requires Holds(known) && root in known && ChildrenKnown(known)
    ensures forall e | e in known :: e in sources <==> IsWithinReach(root, e, known)
    ensures forall e | e in sources :: e in known
    ensures forall j, k | 0 <= j < k < |sources| ::
      sources[j] != sources[k] && NoFurther(root, sources[j], sources[k], known)
  {
    var queue := [Queued(root, 0)];
    var seen: set<Envelope> := {};
    sources := [];
    ghost var depths: Depths, level: nat := map[], 0;
    assert queue[0].env == root;
    while queue != []
      invariant Searching(root, sources, depths, queue, level, known)
      invariant seen == depths.Keys
      decreases known.Keys - seen, |queue|
    {
      var current := queue[0];
      if current.env in seen {
        PopKeepsSearching(root, sources, depths, queue, level, known);
        queue := queue[1..];
      } else {
        var more := Found(current, known);
        FindKeepsSearching(root, sources, depths, queue, level, known, more);
        seen, sources, queue := seen + {current.env}, sources + [current.env], queue[1..] + more;
        depths := depths[current.env := current.depth];
      }
      level := current.depth;
    }
    SearchIsComplete(root, sources, depths, level, known);
  }
}
