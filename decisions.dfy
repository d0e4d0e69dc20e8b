/**
 * The swipe-decision reconciler of the home screen. A signed-in user's decisions
 * live in two collections, "liked" and "unliked", whose entries are queried by
 * `idSport`. A left swipe (dislike) deletes the first liked entry with the
 * sport's id and adds the sport to "unliked" unless it is already there; a
 * right swipe (like) is the mirror image. Each collection is a sequence in the
 * order the store returns it.
 */
module Decisions {
  import opened Wrappers
  import opened Sports

  datatype Direction = Left | Right

  /** The two decision collections of one user. */
  datatype State = State(liked: seq<Sport>, unliked: seq<Sport>)

  /** The collection a swipe in direction `d` moves a sport out of. */
  function From(st: State, d: Direction): seq<Sport> {
    if d == Left then st.liked else st.unliked
  }

  /** The collection a swipe in direction `d` files a sport under. */
  function To(st: State, d: Direction): seq<Sport> {
    if d == Left then st.unliked else st.liked
  }

  /** Some entry of `s` has id `id` (the query `where('idSport', '==', id)` is not empty). */
  predicate Contains(s: seq<Sport>, id: string) {
    exists i :: 0 <= i < |s| && s[i].idSport == id
  }

  /** `k` is the position of the first entry of `s` with id `id`. */
  predicate IsFirst(s: seq<Sport>, id: string, k: nat) {
    k < |s| && s[k].idSport == id && forall j :: 0 <= j < k ==> s[j].idSport != id
  }

  /** Number of entries of `s` with id `id`. */
  function Count(s: seq<Sport>, id: string): nat {
    if s == [] then 0 else (if s[0].idSport == id then 1 else 0) + Count(s[1..], id)
  }

  /** The entries of `s` with id `id`, in order. */
  function WithId(s: seq<Sport>, id: string): seq<Sport> {
    if s == [] then [] else (if s[0].idSport == id then [s[0]] else []) + WithId(s[1..], id)
  }

  /** The first document of a query snapshot for `id`, as a position in `s`. */
  function FirstIndex(s: seq<Sport>, id: string): (r: Option<nat>)
    ensures r.None? <==> !Contains(s, id)
    ensures r.Some? ==> IsFirst(s, id, r.value)
  {
    if s == [] then None
    else if s[0].idSport == id then Some(0)
    else match FirstIndex(s[1..], id)
      case None => None
      case Some(k) => Some(k + 1)
  }

  /** `s` without its entry at position `k` (a `deleteDoc` of that document). */
  function RemoveAt(s: seq<Sport>, k: nat): (r: seq<Sport>)
    requires k < |s|
    ensures |r| == |s| - 1
    ensures forall j :: 0 <= j < k ==> r[j] == s[j]
    ensures forall j :: k <= j < |r| ==> r[j] == s[j + 1]
  {
    s[..k] + s[k + 1..]
  }

  /**
   * The effect of one swipe by a signed-in user. Both queries are answered from
   * the pre-swipe state before anything is deleted or added.
   */
  function Reconcile(st: State, d: Direction, sport: Sport): (r: State)
    // the collection the sport leaves loses exactly its first entry with that id
    ensures Contains(From(st, d), sport.idSport) ==>
      exists k :: IsFirst(From(st, d), sport.idSport, k) && From(r, d) == RemoveAt(From(st, d), k)
    ensures !Contains(From(st, d), sport.idSport) ==> From(r, d) == From(st, d)
    // the target collection gains the sport at its end iff it had no entry with that id
    ensures Contains(To(st, d), sport.idSport) ==> To(r, d) == To(st, d)
    ensures !Contains(To(st, d), sport.idSport) ==> To(r, d) == To(st, d) + [sport]
  {
    var snapshotLiked := FirstIndex(st.liked, sport.idSport);
    var snapshotUnliked := FirstIndex(st.unliked, sport.idSport);
    match d
    case Left =>
      State(
        if snapshotLiked.Some? then RemoveAt(st.liked, snapshotLiked.value) else st.liked,
        if snapshotUnliked.None? then st.unliked + [sport] else st.unliked)
    case Right =>
      State(
        if snapshotLiked.None? then st.liked + [sport] else st.liked,
        if snapshotUnliked.Some? then RemoveAt(st.unliked, snapshotUnliked.value) else st.unliked)
  }

  /** At most one entry per sport id across both collections. */
  ghost predicate Exclusive(st: State) {
    forall id :: Count(st.liked, id) + Count(st.unliked, id) <= 1
  }

  /** The sport with id `id` is filed under direction `d` only, exactly once. */
  predicate ClassifiedAs(st: State, id: string, d: Direction) {
    Count(To(st, d), id) == 1 && Count(From(st, d), id) == 0
  }

  lemma {:induction false} CountContains(s: seq<Sport>, id: string)
    ensures Contains(s, id) <==> Count(s, id) > 0
  {
    if s != [] {
      CountContains(s[1..], id);
      if Contains(s[1..], id) {
        var i :| 0 <= i < |s[1..]| && s[1..][i].idSport == id;
        assert s[i + 1].idSport == id;
      }
      if Contains(s, id) && s[0].idSport != id {
        var i :| 0 <= i < |s| && s[i].idSport == id;
        assert s[1..][i - 1].idSport == id;
      }
    }
  }

  lemma {:induction false} CountAppend(s: seq<Sport>, x: Sport, id: string)
    ensures Count(s + [x], id) == Count(s, id) + (if x.idSport == id then 1 else 0)
  {
    if s != [] {
      assert (s + [x])[1..] == s[1..] + [x];
      CountAppend(s[1..], x, id);
    }
  }

  lemma {:induction false} CountRemoveAt(s: seq<Sport>, k: nat, id: string)
    requires k < |s|
    ensures Count(RemoveAt(s, k), id) == Count(s, id) - (if s[k].idSport == id then 1 else 0)
  {
    if k == 0 {
      assert RemoveAt(s, 0) == s[1..];
    } else {
      assert RemoveAt(s, k)[1..] == RemoveAt(s[1..], k - 1);
      CountRemoveAt(s[1..], k - 1, id);
    }
  }

  lemma {:induction false} WithIdAppend(a: seq<Sport>, b: seq<Sport>, id: string)
    ensures WithId(a + b, id) == WithId(a, id) + WithId(b, id)
  {
    if a == [] {
      assert a + b == b;
    } else {
      assert (a + b)[1..] == a[1..] + b;
      WithIdAppend(a[1..], b, id);
    }
  }

  lemma WithIdRemoveAt(s: seq<Sport>, k: nat, id: string)
    requires k < |s| && s[k].idSport != id
    ensures WithId(RemoveAt(s, k), id) == WithId(s, id)
  {
    assert s == s[..k] + ([s[k]] + s[k + 1..]);
    WithIdAppend(s[..k], [s[k]] + s[k + 1..], id);
    WithIdAppend([s[k]], s[k + 1..], id);
    WithIdAppend(s[..k], s[k + 1..], id);
  }

  /** How one swipe changes the number of entries of every id in each collection. */
  lemma ReconcileCounts(st: State, d: Direction, sport: Sport, id: string)
    ensures Count(From(Reconcile(st, d, sport), d), id)
         == Count(From(st, d), id) - (if id == sport.idSport && Contains(From(st, d), id) then 1 else 0)
    ensures Count(To(Reconcile(st, d, sport), d), id)
         == Count(To(st, d), id) + (if id == sport.idSport && !Contains(To(st, d), id) then 1 else 0)
  {
    var r := Reconcile(st, d, sport);
    if Contains(From(st, d), sport.idSport) {
      var k :| IsFirst(From(st, d), sport.idSport, k) && From(r, d) == RemoveAt(From(st, d), k);
      CountRemoveAt(From(st, d), k, id);
    }
    if !Contains(To(st, d), sport.idSport) {
      CountAppend(To(st, d), sport, id);
    }
  }

  /** A swipe on one sport leaves the entries of every other sport id where they were: the same records, in the same order. */
  lemma ReconcileOtherIds(st: State, d: Direction, sport: Sport, id: string)
    requires id != sport.idSport
    ensures WithId(Reconcile(st, d, sport).liked, id) == WithId(st.liked, id)
    ensures WithId(Reconcile(st, d, sport).unliked, id) == WithId(st.unliked, id)
    ensures Count(Reconcile(st, d, sport).liked, id) == Count(st.liked, id)
    ensures Count(Reconcile(st, d, sport).unliked, id) == Count(st.unliked, id)
  {
    var r := Reconcile(st, d, sport);
    ReconcileCounts(st, d, sport, id);
    if Contains(From(st, d), sport.idSport) {
      var k :| IsFirst(From(st, d), sport.idSport, k) && From(r, d) == RemoveAt(From(st, d), k);
      WithIdRemoveAt(From(st, d), k, id);
    }
    if !Contains(To(st, d), sport.idSport) {
      WithIdAppend(To(st, d), [sport], id);
    }
  }

  /**
   * A swipe keeps the collections mutually exclusive, and afterwards the swiped
   * sport is filed under the swipe's direction only.
   */
  lemma ReconcilePreservesExclusive(st: State, d: Direction, sport: Sport)
    requires Exclusive(st)
    ensures Exclusive(Reconcile(st, d, sport))
    ensures ClassifiedAs(Reconcile(st, d, sport), sport.idSport, d)
  {
    var r := Reconcile(st, d, sport);
    forall id ensures Count(r.liked, id) + Count(r.unliked, id) <= 1 {
      ReconcileCounts(st, d, sport, id);
      CountContains(From(st, d), id);
      CountContains(To(st, d), id);
      assert Count(st.liked, id) + Count(st.unliked, id) <= 1;
    }
    ReconcileCounts(st, d, sport, sport.idSport);
    CountContains(From(st, d), sport.idSport);
    CountContains(To(st, d), sport.idSport);
    assert Count(st.liked, sport.idSport) + Count(st.unliked, sport.idSport) <= 1;
  }

  /**
   * Swiping the same sport twice in the same direction ends where one swipe
   * ends, provided the collection the sport leaves held at most one entry for it
   * (which `Exclusive` guarantees).
   */
  lemma ReconcileIdempotent(st: State, d: Direction, sport: Sport)
    requires Count(From(st, d), sport.idSport) <= 1
    ensures Reconcile(Reconcile(st, d, sport), d, sport) == Reconcile(st, d, sport)
  {
    var r := Reconcile(st, d, sport);
    ReconcileCounts(st, d, sport, sport.idSport);
    CountContains(From(st, d), sport.idSport);
    CountContains(From(r, d), sport.idSport);
    CountContains(To(st, d), sport.idSport);
    CountContains(To(r, d), sport.idSport);
  }

  /** From a consistent state, a repeated swipe changes nothing. */
  lemma ReconcileIdempotentWhenExclusive(st: State, d: Direction, sport: Sport)
    requires Exclusive(st)
    ensures Reconcile(Reconcile(st, d, sport), d, sport) == Reconcile(st, d, sport)
  {
    assert Count(st.liked, sport.idSport) + Count(st.unliked, sport.idSport) <= 1;
    ReconcileIdempotent(st, d, sport);
  }

  /** The idempotence of a swipe needs its hypothesis: two liked entries for one id take two left swipes to clear. */
  lemma IdempotenceNeedsSingleEntry(sport: Sport)
    ensures var st := State([sport, sport], []);
      Reconcile(Reconcile(st, Left, sport), Left, sport) != Reconcile(st, Left, sport)
  {
    var st := State([sport, sport], []);
    assert Reconcile(st, Left, sport).liked == [sport];
    assert Reconcile(Reconcile(st, Left, sport), Left, sport).liked == [];
  }

  /** One swipe event. */
  datatype Swipe = Swipe(direction: Direction, sport: Sport)

  /** The decision state after the swipes `ws`, in order, starting from `st`; consistency is kept throughout. */
  ghost function Replay(st: State, ws: seq<Swipe>): (r: State)
    ensures Exclusive(st) ==> Exclusive(r)
  {
    if ws == [] then st
    else
      var prev := Replay(st, ws[..|ws| - 1]);
      var last := ws[|ws| - 1];
      if Exclusive(st) then
        ReconcilePreservesExclusive(prev, last.direction, last.sport);
        Reconcile(prev, last.direction, last.sport)
      else
        Reconcile(prev, last.direction, last.sport)
  }

  /**
   * From a consistent state, after any sequence of swipes, a sport that was
   * swiped at position `k` and never again is filed under the direction of that
   * last swipe, once, and nowhere else.
   */
  lemma {:induction false} LastSwipeDecides(st: State, ws: seq<Swipe>, k: nat)
    requires Exclusive(st)
    requires k < |ws|
    requires forall j :: k < j < |ws| ==> ws[j].sport.idSport != ws[k].sport.idSport
    ensures ClassifiedAs(Replay(st, ws), ws[k].sport.idSport, ws[k].direction)
  {
    var prefix := ws[..|ws| - 1];
    var last := ws[|ws| - 1];
    var id := ws[k].sport.idSport;
    if k == |ws| - 1 {
      ReconcilePreservesExclusive(Replay(st, prefix), last.direction, last.sport);
    } else {
      assert prefix[k] == ws[k];
      forall j | k < j < |prefix| ensures prefix[j].sport.idSport != prefix[k].sport.idSport {
        assert prefix[j] == ws[j];
      }
      LastSwipeDecides(st, prefix, k);
      ReconcileOtherIds(Replay(st, prefix), last.direction, last.sport, id);
    }
  }

  /** No decisions at all: the state of a new user. */
  lemma EmptyIsExclusive()
    ensures Exclusive(State([], []))
  {
  }

  /** Swiping right on a sport with an empty history files it under "liked" only. */
  lemma ScenarioRightOnEmpty(darts: Sport)
    ensures Reconcile(State([], []), Right, darts) == State([darts], [])
  {
  }

  /** Swiping left on a sport whose one liked entry has its id moves it to "unliked". */
  lemma ScenarioLeftOnLiked(stored: Sport, sport: Sport)
    requires stored.idSport == sport.idSport
    ensures Reconcile(State([stored], []), Left, sport) == State([], [sport])
  {
  }

  /** A left swipe then a right swipe leave a sport in "liked" only. */
  lemma ToggleLeftThenRight(st: State, sport: Sport)
    requires Exclusive(st)
    ensures ClassifiedAs(Reconcile(Reconcile(st, Left, sport), Right, sport), sport.idSport, Right)
  {
    ReconcilePreservesExclusive(st, Left, sport);
    ReconcilePreservesExclusive(Reconcile(st, Left, sport), Right, sport);
  }

  /**
   * The current user's two remote collections. `Swipe` is the body of the
   * swipe handler: query both collections, then delete and add step by step.
   */
  class DecisionStore {
    var liked: seq<Sport>
    var unliked: seq<Sport>

    function Snapshot(): State
      reads this
    {
      State(liked, unliked)
    }

    constructor (liked0: seq<Sport>, unliked0: seq<Sport>)
      ensures Snapshot() == State(liked0, unliked0)
    {
      liked, unliked := liked0, unliked0;
    }

    /** Reconciles one swipe; without a signed-in user nothing changes. */
    method Swipe(d: Direction, sport: Sport, signedIn: bool)
      modifies this
      ensures Snapshot() == if signedIn then Reconcile(old(Snapshot()), d, sport) else old(Snapshot())
    {
      if signedIn {
        var snapshotLiked := FirstIndex(liked, sport.idSport);
        var snapshotUnliked := FirstIndex(unliked, sport.idSport);
        if d == Left {
          if snapshotLiked.Some? {
            liked := RemoveAt(liked, snapshotLiked.value);
          }
          if snapshotUnliked.None? {
            unliked := unliked + [sport];
          }
        } else {
          if snapshotUnliked.Some? {
            unliked := RemoveAt(unliked, snapshotUnliked.value);
          }
          if snapshotLiked.None? {
            liked := liked + [sport];
          }
        }
      }
    }
  }
}
