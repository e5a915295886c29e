/** The process-local store of archive previews: expiring entries, bounded in number. */
module PreviewStore {
  import opened TextModel
  import opened IsoTime

  /** Microseconds from the start of year 1 to the end of year 9999, the range of Python's date-times. */
  const LAST_INSTANT := 315537897599999999

  type Instant = t: int | 0 <= t <= LAST_INSTANT

  /** The rendered pair a preview stands for. */
  datatype Artifact = Artifact(stem: Text, json: Text, markdown: Text)

  /** A stored preview; the text of its expiry time is what trimming sorts by. */
  datatype Stored = Stored(id: Text, root: Text, artifact: Artifact, expiresAt: Instant, expiresText: Text) {
    predicate Live(now: Instant) { now < expiresAt }
  }

  /** The text of an instant; what matters is that the order of the texts is the order of the instants. */
  ghost predicate KeepsOrder(stamp: Instant -> Text) {
    forall t: Instant, u: Instant {:trigger stamp(t), stamp(u)} :: TextBefore(stamp(t), stamp(u)) <==> t < u
  }

  /** ISO texts do: whatever calendar turns instants into increasing date-times. */
  lemma IsoStampKeepsOrder(calendar: Instant -> DateTime)
    requires forall t: Instant :: calendar(t).Valid()
    requires forall t: Instant, u: Instant :: calendar(t).Before(calendar(u)) <==> t < u
    ensures KeepsOrder((t: Instant) => calendar(t).Iso())
  {
    forall t: Instant, u: Instant ensures TextBefore(calendar(t).Iso(), calendar(u).Iso()) <==> t < u {
      IsoKeepsOrder(calendar(t), calendar(u));
    }
  }

  ghost predicate Stamped(items: seq<Stored>, stamp: Instant -> Text) {
    forall i | 0 <= i < |items| :: items[i].expiresText == stamp(items[i].expiresAt)
  }

  // ----- What the private steps do to the entries, in insertion order -----

  function Purge(items: seq<Stored>, now: Instant): seq<Stored> {
    if items == [] then []
    else
      var front, last := Purge(items[..|items| - 1], now), items[|items| - 1];
      if last.Live(now) then front + [last] else front
  }

  /** `sorted` by expiry text: stable, so an entry goes after those with an equal text. */
  function Insert(sorted: seq<Stored>, x: Stored): seq<Stored> {
    if sorted == [] || !TextBefore(x.expiresText, sorted[|sorted| - 1].expiresText) then sorted + [x]
    else Insert(sorted[..|sorted| - 1], x) + [sorted[|sorted| - 1]]
  }

  function Sorted(items: seq<Stored>): seq<Stored> {
    if items == [] then [] else Insert(Sorted(items[..|items| - 1]), items[|items| - 1])
  }

  function Without(items: seq<Stored>, id: Text): seq<Stored> {
    if items == [] then []
    else
      var front, last := Without(items[..|items| - 1], id), items[|items| - 1];
      if last.id == id then front else front + [last]
  }

  function WithoutAll(items: seq<Stored>, removed: seq<Stored>): seq<Stored>
    decreases |removed|
  {
    if removed == [] then items else Without(WithoutAll(items, removed[..|removed| - 1]), removed[|removed| - 1].id)
  }

  function Trim(items: seq<Stored>, maxItems: nat): seq<Stored> {
    var overflow := |items| - maxItems;
    if overflow <= 0 then items else WithoutAll(items, Take(Sorted(items), overflow))
  }

  function Take(items: seq<Stored>, n: int): seq<Stored> { if 0 <= n <= |items| then items[..n] else items }

  /** The whole effect of `put`: purge, append, trim. */
  function AfterPut(items: seq<Stored>, stored: Stored, now: Instant, maxItems: nat): seq<Stored> {
    Trim(Purge(items, now) + [stored], maxItems)
  }

  predicate DistinctIds(items: seq<Stored>) {
    forall i, j | 0 <= i < j < |items| :: items[i].id != items[j].id
  }

  // ----- The store -----

  class CurrentFactsPreviewStore {
    const maxItems: nat
    const ttl: int
    const stamp: Instant -> Text
    var items: seq<Stored>

    ghost predicate Valid() reads this { ttl >= 1 && maxItems >= 1 && |items| <= maxItems && DistinctIds(items) }

    constructor (ttl: int, maxItems: int, stamp: Instant -> Text)
      ensures Valid() && items == [] && this.stamp == stamp
      ensures this.ttl == (if ttl < 1 then 1 else ttl) && this.maxItems == (if maxItems < 1 then 1 else maxItems)
    {
      this.ttl := if ttl < 1 then 1 else ttl;
      this.maxItems := if maxItems < 1 then 1 else maxItems;
      this.stamp := stamp;
      items := [];
    }

    /** Stores an artifact under a new id; clock and id are given. */
    method Put(root: Text, artifact: Artifact, now: Instant, freshId: Text) returns (stored: Stored)
      requires Valid() && forall i | 0 <= i < |items| :: items[i].id != freshId
      requires now + ttl <= LAST_INSTANT
      modifies this
      ensures Valid()
      ensures stored == Stored(freshId, root, artifact, now + ttl, stamp(now + ttl))
      ensures items == AfterPut(old(items), stored, now, maxItems)
    {
      stored := Stored(freshId, root, artifact, now + ttl, stamp(now + ttl));
      PurgeIsASelection(items, now);
      FreshIdStaysDistinct(items, stored, now);
      TrimDropsTheOldest(Purge(items, now) + [stored], maxItems);
      PurgeExpired(now);
      items := items + [stored];
      TrimToMax();
    }

    /** Looks a preview up; a blank id is refused before the clock is read. */
    method Get(id: Text, root: Text, now: Instant) returns (found: Option<Stored>)
      requires Valid()
      modifies this
      ensures Valid()
      ensures IsBlank(id) ==> found == None && items == old(items)
      ensures !IsBlank(id) ==> items == Purge(old(items), now)
      ensures !IsBlank(id) ==> forall e :: found == Some(e) <==>
        e in old(items) && e.id == Strip(id) && e.root == root && now < e.expiresAt
    {
      if IsBlank(id) {
        return None;
      }
      PurgeIsASelection(items, now);
      PurgeExpired(now);
      for i := 0 to |items|
        invariant forall j | 0 <= j < i :: items[j].id != Strip(id)
      {
        if items[i].id == Strip(id) {
          assert forall e | e in items && e.id == Strip(id) :: e == items[i];
          assert items[i] in items;
          return if items[i].root == root then Some(items[i]) else None;
        }
      }
      return None;
    }

    method PurgeExpired(now: Instant)
      modifies this
      ensures items == Purge(old(items), now)
    {
      var kept: seq<Stored> := [];
      for i := 0 to |items|
        invariant items == old(items) && kept == Purge(items[..i], now)
      {
        assert items[..i + 1][..i] == items[..i];
        if items[i].Live(now) {
          kept := kept + [items[i]];
        }
      }
      assert items[..|items|] == items;
      items := kept;
    }

    method TrimToMax()
      modifies this
      ensures items == Trim(old(items), maxItems)
    {
      var overflow := |items| - maxItems;
      if overflow <= 0 {
        return;
      }
      var oldest := Take(Sorted(items), overflow);
      for i := 0 to |oldest|
        invariant items == WithoutAll(old(items), oldest[..i])
      {
        assert oldest[..i + 1][..i] == oldest[..i];
        items := Without(items, oldest[i].id);
      }
      assert oldest[..|oldest|] == oldest;
    }
  }

  // ----- Selections keep order and distinctness -----

  lemma {:induction false} PurgeIsASelection(items: seq<Stored>, now: Instant)
    ensures |Purge(items, now)| <= |items|
    ensures forall e :: e in Purge(items, now) <==> e in items && e.Live(now)
    ensures DistinctIds(items) ==> DistinctIds(Purge(items, now))
  {
    if items != [] {
      var front, last := items[..|items| - 1], items[|items| - 1];
      PurgeIsASelection(front, now);
      assert items == front + [last];
      assert forall e :: e in items <==> e in front || e == last;
      if DistinctIds(items) {
        var kept := Purge(front, now);
        forall i | 0 <= i < |kept| ensures kept[i].id != last.id {
          assert kept[i] in kept && kept[i] in front;
        }
      }
    }
  }

  lemma FreshIdStaysDistinct(items: seq<Stored>, stored: Stored, now: Instant)
    requires DistinctIds(items) && forall i | 0 <= i < |items| :: items[i].id != stored.id
    ensures DistinctIds(Purge(items, now) + [stored])
  {
    PurgeIsASelection(items, now);
    var kept := Purge(items, now);
    forall i | 0 <= i < |kept| ensures kept[i].id != stored.id {
      assert kept[i] in kept && kept[i] in items;
    }
  }

  lemma {:induction false} WithoutOne(items: seq<Stored>, k: nat)
    requires k < |items| && DistinctIds(items)
    ensures Without(items, items[k].id) == items[..k] + items[k + 1..]
  {
    var front, last := items[..|items| - 1], items[|items| - 1];
    if k == |items| - 1 {
      WithoutNone(front, last.id);
      assert items[k + 1..] == [];
    } else {
      WithoutOne(front, k);
      assert items[..k] + items[k + 1..] == front[..k] + front[k + 1..] + [last];
    }
  }

  lemma {:induction false} WithoutNone(items: seq<Stored>, id: Text)
    requires forall i | 0 <= i < |items| :: items[i].id != id
    ensures Without(items, id) == items
  {
    if items != [] {
      WithoutNone(items[..|items| - 1], id);
    }
  }

  // ----- What trimming removes -----

  predicate NoLater(items: seq<Stored>) {
    forall i, j | 0 <= i < j < |items| :: !TextBefore(items[j].expiresText, items[i].expiresText)
  }

  /** The first of the entries with the earliest expiry text. */
  function FirstOldest(items: seq<Stored>): (k: nat)
    requires items != []
    ensures k < |items|
  {
    if |items| == 1 then 0
    else
      var k := FirstOldest(items[..|items| - 1]);
      if TextBefore(items[|items| - 1].expiresText, items[k].expiresText) then |items| - 1 else k
  }

  lemma {:induction false} InsertHead(sorted: seq<Stored>, x: Stored)
    requires NoLater(sorted)
    ensures |Insert(sorted, x)| == |sorted| + 1 && NoLater(Insert(sorted, x))
    ensures Insert(sorted, x)[0] ==
      if sorted == [] || TextBefore(x.expiresText, sorted[0].expiresText) then x else sorted[0]
    ensures forall e :: e in Insert(sorted, x) <==> e in sorted || e == x
  {
    if sorted != [] {
      var front, last := sorted[..|sorted| - 1], sorted[|sorted| - 1];
      assert sorted == front + [last];
      if TextBefore(x.expiresText, last.expiresText) {
        InsertHead(front, x);
        NeverBeforeBoth(x.expiresText, last.expiresText);
        forall i | 0 <= i < |front| ensures !TextBefore(last.expiresText, front[i].expiresText) {
          assert sorted[i] == front[i];
        }
        forall e | e in Insert(front, x) ensures !TextBefore(last.expiresText, e.expiresText) {
          if e != x {
            var i :| 0 <= i < |front| && front[i] == e;
          }
        }
        AppendedStaysSorted(Insert(front, x), last);
      } else {
        forall i | 0 <= i < |sorted| ensures !TextBefore(x.expiresText, sorted[i].expiresText) {
          if TextBefore(x.expiresText, sorted[i].expiresText) {
            BeforeSplits(x.expiresText, last.expiresText, sorted[i].expiresText);
          }
        }
        AppendedStaysSorted(sorted, x);
      }
    }
  }

  lemma NeverBeforeBoth(a: Text, b: Text)
    requires TextBefore(a, b)
    ensures !TextBefore(b, a)
  {
    if TextBefore(b, a) {
      BothWaysIsAbsurd(a, b);
    }
  }

  lemma {:induction false} BothWaysIsAbsurd(a: Text, b: Text)
    requires TextBefore(a, b) && TextBefore(b, a)
    ensures false
  {
    if a != [] && b != [] && a[0] == b[0] {
      BothWaysIsAbsurd(a[1..], b[1..]);
    }
  }

  lemma AppendedStaysSorted(items: seq<Stored>, x: Stored)
    requires NoLater(items) && forall e | e in items :: !TextBefore(x.expiresText, e.expiresText)
    ensures NoLater(items + [x])
  {
    var all := items + [x];
    forall i, j | 0 <= i < j < |all| ensures !TextBefore(all[j].expiresText, all[i].expiresText) {
      assert all[i] == items[i] && items[i] in items;
    }
  }

  /** Sorting brings the first of the earliest entries to the front. */
  lemma {:induction false} SortedHead(items: seq<Stored>)
    ensures |Sorted(items)| == |items| && NoLater(Sorted(items))
    ensures items != [] ==> Sorted(items)[0] == items[FirstOldest(items)]
  {
    if items != [] {
      SortedHead(items[..|items| - 1]);
      InsertHead(Sorted(items[..|items| - 1]), items[|items| - 1]);
    }
  }

  /** With one entry too many, trimming removes just the first of those that expire earliest. */
  lemma TrimDropsTheOldest(items: seq<Stored>, maxItems: nat)
    requires DistinctIds(items) && 1 <= maxItems && |items| <= maxItems + 1
    ensures |items| <= maxItems ==> Trim(items, maxItems) == items
    ensures |items| == maxItems + 1 ==>
      var k := FirstOldest(items); Trim(items, maxItems) == items[..k] + items[k + 1..]
    ensures DistinctIds(Trim(items, maxItems)) && |Trim(items, maxItems)| <= maxItems
  {
    if |items| == maxItems + 1 {
      SortedHead(items);
      var k := FirstOldest(items);
      var first := Sorted(items)[..1];
      assert first == [items[k]] && first[..0] == [];
      assert Take(Sorted(items), 1) == first;
      assert WithoutAll(items, first[..0]) == items;
      WithoutOne(items, k);
    }
  }

  lemma {:induction false} FirstOldestMeaning(items: seq<Stored>)
    requires items != []
    ensures var k := FirstOldest(items);
      && (forall i | 0 <= i < |items| :: !TextBefore(items[i].expiresText, items[k].expiresText))
      && (forall i | 0 <= i < k :: TextBefore(items[k].expiresText, items[i].expiresText))
  {
    if |items| > 1 {
      var front, last := items[..|items| - 1], items[|items| - 1];
      FirstOldestMeaning(front);
      var k := FirstOldest(front);
      if TextBefore(last.expiresText, front[k].expiresText) {
        NeverBeforeItself(last.expiresText);
        forall i | 0 <= i < |front| ensures TextBefore(last.expiresText, items[i].expiresText) {
          assert items[i] == front[i];
          BeforeSplits(last.expiresText, front[i].expiresText, front[k].expiresText);
        }
        forall i | 0 <= i < |items| ensures !TextBefore(items[i].expiresText, last.expiresText) {
          if i < |front| {
            NeverBeforeBoth(last.expiresText, items[i].expiresText);
          }
        }
      } else {
        assert forall i | 0 <= i < |front| :: items[i] == front[i];
      }
    } else {
      NeverBeforeItself(items[0].expiresText);
    }
  }

  /**
   * A put evicts at most one entry. It evicts the entry it has just stored exactly when the store is full of live
   * entries that all expire later. That takes another put that read a later time and was done first, or a clock that
   * has gone backwards.
   */
  lemma PutEvictsAtMostOne(items: seq<Stored>, stored: Stored, now: Instant, maxItems: nat, stamp: Instant -> Text)
    requires 1 <= maxItems && |items| <= maxItems && DistinctIds(items)
    requires forall i | 0 <= i < |items| :: items[i].id != stored.id
    requires KeepsOrder(stamp) && Stamped(items + [stored], stamp)
    ensures var live, after := Purge(items, now), AfterPut(items, stored, now, maxItems);
      && |after| == (if |live| == maxItems then |live| else |live| + 1)
      && (forall e | e in after :: e in live || e == stored)
      && (stored !in after <==> |live| == maxItems && forall e | e in live :: stored.expiresAt < e.expiresAt)
  {
    PurgeIsASelection(items, now);
    FreshIdStaysDistinct(items, stored, now);
    var live := Purge(items, now);
    var all := live + [stored];
    TrimDropsTheOldest(all, maxItems);
    FirstOldestMeaning(all);
    var k := FirstOldest(all);
    assert (items + [stored])[|items|] == stored;
    forall e | e in live ensures e.expiresText == stamp(e.expiresAt) {
      var i :| 0 <= i < |items| && items[i] == e;
      assert (items + [stored])[i] == e;
    }
    if |live| == maxItems {
      OneTakenOut(live, stored, k);
      if k == |live| {
        assert forall i | 0 <= i < |live| :: all[i] == live[i];
      } else {
        assert all[k] == live[k] && live[k] in live;
      }
    } else {
      assert all[|live|] == stored;
    }
  }

  lemma OneTakenOut(live: seq<Stored>, stored: Stored, k: nat)
    requires k <= |live| && DistinctIds(live + [stored])
    ensures var all := live + [stored];
      var after := all[..k] + all[k + 1..];
      && |after| == |live| && (forall e | e in after :: e in live || e == stored)
      && (stored !in after <==> k == |live|)
  {
    var all := live + [stored];
    var after := all[..k] + all[k + 1..];
    if k == |live| {
      assert after == live;
      assert all[|live|] == stored && forall i | 0 <= i < |live| :: all[i] == live[i];
    } else {
      assert after[|live| - 1] == stored;
    }
  }

  // ----- The store refines a history of puts -----

  datatype Op = PutOp(now: Instant, stored: Stored) | GetOp(now: Instant)

  function Replay(ops: seq<Op>, maxItems: nat): seq<Stored> {
    if ops == [] then []
    else
      var before := Replay(ops[..|ops| - 1], maxItems);
      match ops[|ops| - 1]
      case PutOp(now, stored) => AfterPut(before, stored, now, maxItems)
      case GetOp(now) => Purge(before, now)
  }

  function Puts(ops: seq<Op>): seq<Stored> {
    if ops == [] then []
    else
      var before := Puts(ops[..|ops| - 1]);
      match ops[|ops| - 1]
      case PutOp(_, stored) => before + [stored]
      case GetOp(_) => before
  }

  /** The calls take effect in the order of their clock readings, ids are new, and each put expires one ttl later. */
  ghost predicate Proper(ops: seq<Op>, ttl: int, stamp: Instant -> Text) {
    && (forall i, j | 0 <= i < j < |ops| :: ops[i].now <= ops[j].now)
    && (forall i | 0 <= i < |ops| && ops[i].PutOp? :: ops[i].stored.expiresAt == ops[i].now + ttl)
    && Stamped(Puts(ops), stamp)
    && DistinctIds(Puts(ops))
  }

  /** The last n of a sequence. */
  function LastOf(n: nat, items: seq<Stored>): seq<Stored> { if |items| <= n then items else items[|items| - n..] }

  predicate Ordered(h: seq<Stored>) { forall i, j | 0 <= i < j < |h| :: h[i].expiresAt <= h[j].expiresAt }

  lemma FrontIsProper(ops: seq<Op>, ttl: int, stamp: Instant -> Text)
    requires Proper(ops, ttl, stamp) && ops != []
    ensures Proper(ops[..|ops| - 1], ttl, stamp)
  {
    var front := ops[..|ops| - 1];
    assert forall i | 0 <= i < |front| :: front[i] == ops[i];
    assert forall i | 0 <= i < |Puts(front)| :: Puts(ops)[i] == Puts(front)[i];
  }

  lemma {:induction false} PutsAreOrdered(ops: seq<Op>, ttl: int, stamp: Instant -> Text)
    requires Proper(ops, ttl, stamp)
    ensures Ordered(Puts(ops))
    ensures ops != [] ==> forall i | 0 <= i < |Puts(ops)| :: Puts(ops)[i].expiresAt <= ops[|ops| - 1].now + ttl
  {
    if ops != [] {
      var front := ops[..|ops| - 1];
      FrontIsProper(ops, ttl, stamp);
      PutsAreOrdered(front, ttl, stamp);
      if front != [] {
        assert ops[|front| - 1] == front[|front| - 1] && ops[|front| - 1].now <= ops[|ops| - 1].now;
      }
    }
  }

  lemma {:induction false} PurgeOfConcat(a: seq<Stored>, b: seq<Stored>, now: Instant)
    ensures Purge(a + b, now) == Purge(a, now) + Purge(b, now)
    decreases |b|
  {
    if b == [] {
      assert a + b == a;
    } else {
      assert (a + b)[..|a + b| - 1] == a + b[..|b| - 1];
      PurgeOfConcat(a, b[..|b| - 1], now);
    }
  }

  lemma {:induction false} PurgeOfExpired(h: seq<Stored>, now: Instant)
    requires forall i | 0 <= i < |h| :: !h[i].Live(now)
    ensures Purge(h, now) == []
  {
    if h != [] {
      PurgeOfExpired(h[..|h| - 1], now);
    }
  }

  lemma {:induction false} PurgeOfLive(h: seq<Stored>, now: Instant)
    requires forall i | 0 <= i < |h| :: h[i].Live(now)
    ensures Purge(h, now) == h
  {
    if h != [] {
      PurgeOfLive(h[..|h| - 1], now);
    }
  }

  lemma PurgeAt(h: seq<Stored>, k: nat, now: Instant)
    requires k <= |h|
    requires forall i | 0 <= i < |h| :: h[i].Live(now) <==> k <= i
    ensures Purge(h, now) == h[k..]
  {
    assert h == h[..k] + h[k..];
    PurgeOfConcat(h[..k], h[k..], now);
    PurgeOfExpired(h[..k], now);
    PurgeOfLive(h[k..], now);
  }

  /** How many entries of an ordered history have expired. */
  function Expired(h: seq<Stored>, now: Instant): (k: nat)
    requires Ordered(h)
    ensures k <= |h| && forall i | 0 <= i < |h| :: h[i].Live(now) <==> k <= i
  {
    if h == [] then 0
    else if h[|h| - 1].Live(now) then Expired(h[..|h| - 1], now)
    else |h|
  }

  function Max(a: int, b: int): int { if a < b then b else a }

  lemma PurgeOfOrdered(h: seq<Stored>, j: nat, now: Instant)
    requires Ordered(h) && j <= |h|
    ensures Purge(h[j..], now) == h[Max(j, Expired(h, now))..]
  {
    var s, k := h[j..], Expired(h, now);
    var m := Max(j, k) - j;
    forall i | 0 <= i < |s| ensures s[i].Live(now) <==> m <= i {
      assert s[i] == h[j + i];
    }
    PurgeAt(s, m, now);
    assert s[m..] == h[Max(j, k)..];
  }

  /** Where the store's window starts in the history. */
  function WindowStart(h: seq<Stored>, now: Instant, maxItems: nat): (j: nat)
    requires Ordered(h)
    ensures j <= |h|
  {
    Max(|h| - maxItems, Expired(h, now))
  }

  lemma WindowIsTheLastUnexpired(h: seq<Stored>, now: Instant, maxItems: nat)
    requires Ordered(h)
    ensures LastOf(maxItems, Purge(h, now)) == h[WindowStart(h, now, maxItems)..]
  {
    PurgeOfOrdered(h, 0, now);
    assert h[0..] == h && Max(0, Expired(h, now)) == Expired(h, now);
  }

  /** An ordered window with one entry too many loses its first. */
  lemma TrimOfOrdered(window: seq<Stored>, maxItems: nat, stamp: Instant -> Text)
    requires Ordered(window) && DistinctIds(window) && 1 <= maxItems && |window| <= maxItems + 1
    requires KeepsOrder(stamp) && Stamped(window, stamp)
    ensures Trim(window, maxItems) == LastOf(maxItems, window)
  {
    TrimDropsTheOldest(window, maxItems);
    if |window| == maxItems + 1 {
      FirstOldestMeaning(window);
      var k := FirstOldest(window);
      assert window[0].expiresAt <= window[k].expiresAt;
      assert k == 0;
    }
  }

  lemma ExpiredIs(h: seq<Stored>, k: nat, now: Instant)
    requires Ordered(h) && k <= |h| && forall i | 0 <= i < |h| :: h[i].Live(now) <==> k <= i
    ensures Expired(h, now) == k
  {
    var m := Expired(h, now);
    assert m < |h| ==> (h[m].Live(now) <==> k <= m);
    assert k < |h| ==> (h[k].Live(now) <==> m <= k);
  }

  lemma OneMoreLiveEntry(h: seq<Stored>, stored: Stored, now: Instant)
    requires Ordered(h) && Ordered(h + [stored]) && stored.Live(now)
    ensures Expired(h + [stored], now) == Expired(h, now)
  {
    var all := h + [stored];
    forall i | 0 <= i < |all| ensures all[i].Live(now) <==> Expired(h, now) <= i {
      assert i < |h| ==> all[i] == h[i];
    }
    ExpiredIs(all, Expired(h, now), now);
  }

  lemma ExpiryOnlyGrows(h: seq<Stored>, t: Instant, now: Instant)
    requires Ordered(h) && t <= now
    ensures Expired(h, t) <= Expired(h, now)
  {
    var k := Expired(h, now);
    assert k < |h| ==> h[k].Live(t);
  }

  /** As time goes by the window only loses expired entries at its start. */
  lemma WindowLater(h: seq<Stored>, t: Instant, now: Instant, maxItems: nat)
    requires Ordered(h) && t <= now
    ensures Purge(LastOf(maxItems, Purge(h, t)), now) == h[WindowStart(h, now, maxItems)..]
  {
    var j := WindowStart(h, t, maxItems);
    WindowIsTheLastUnexpired(h, t, maxItems);
    PurgeOfOrdered(h, j, now);
    ExpiryOnlyGrows(h, t, now);
    assert Max(j, Expired(h, now)) == WindowStart(h, now, maxItems);
  }

  /** A put moves the window by at most one. */
  lemma PutMovesWindow(h: seq<Stored>, stored: Stored, now: Instant, first: nat, maxItems: nat, stamp: Instant -> Text)
    requires var all := h + [stored]; Ordered(all) && DistinctIds(all) && Stamped(all, stamp) && Ordered(h)
    requires KeepsOrder(stamp) && 1 <= maxItems && stored.Live(now)
    requires first == WindowStart(h, now, maxItems)
    ensures Trim(h[first..] + [stored], maxItems) == (h + [stored])[WindowStart(h + [stored], now, maxItems)..]
  {
    var all := h + [stored];
    var window := all[first..];
    OneMoreLiveEntry(h, stored, now);
    var next := WindowStart(all, now, maxItems);
    assert next == first || (next == first + 1 && |window| == maxItems + 1);
    assert LastOf(maxItems, window) == all[next..];
    assert h[first..] + [stored] == window;
    TrimOfWindow(all, first, maxItems, stamp);
  }

  lemma TrimOfWindow(all: seq<Stored>, first: nat, maxItems: nat, stamp: Instant -> Text)
    requires Ordered(all) && DistinctIds(all) && Stamped(all, stamp) && KeepsOrder(stamp)
    requires 1 <= maxItems && first <= |all| <= first + maxItems + 1
    ensures Trim(all[first..], maxItems) == LastOf(maxItems, all[first..])
  {
    var window := all[first..];
    assert forall i | 0 <= i < |window| :: window[i] == all[first + i];
    TrimOfOrdered(window, maxItems, stamp);
  }

  /**
   * Whatever the sequence of puts and gets, the store holds exactly the last maxItems of the puts that had not
   * expired at the last operation.
   */
  lemma {:induction false} StoreRefinesHistory(ops: seq<Op>, ttl: int, maxItems: nat, stamp: Instant -> Text)
    requires ops != [] && Proper(ops, ttl, stamp) && KeepsOrder(stamp) && 1 <= ttl && 1 <= maxItems
    ensures Replay(ops, maxItems) == LastOf(maxItems, Purge(Puts(ops), ops[|ops| - 1].now))
  {
    var front, op := ops[..|ops| - 1], ops[|ops| - 1];
    var h := Puts(front);
    FrontIsProper(ops, ttl, stamp);
    PutsAreOrdered(front, ttl, stamp);
    PutsAreOrdered(ops, ttl, stamp);
    WindowIsTheLastUnexpired(Puts(ops), op.now, maxItems);
    var first := WindowStart(h, op.now, maxItems);
    if front != [] {
      var t := front[|front| - 1].now;
      assert t == ops[|front| - 1].now <= op.now;
      StoreRefinesHistory(front, ttl, maxItems, stamp);
      WindowLater(h, t, op.now, maxItems);
    }
    assert Purge(Replay(front, maxItems), op.now) == h[first..];
    if op.PutOp? {
      PutMovesWindow(h, op.stored, op.now, first, maxItems, stamp);
    }
  }
}
