/**
 * The card deck of the home screen: the catalog of sports, the index of the
 * card on top, and the swipe handler that files a decision and then moves on
 * to the next card, wrapping round after the last one.
 */
module Deck {
  import opened Sports
  import opened Decisions

  /**
   * A JavaScript number, as far as the deck index needs one: an integer or NaN.
   * The index updater of the source computes `(prev + 1) % sports.length` on these.
   */
  datatype JsNumber = Finite(value: int) | NaN

  /** JavaScript's `%` on integers: the remainder takes the sign of the dividend. */
  function JsRem(a: int, n: int): (r: JsNumber)
    ensures n == 0 <==> r == NaN
    ensures n != 0 && a >= 0 ==> r == Finite(a % n)
  {
    if n == 0 then NaN
    else if a >= 0 then Finite(a % n)
    else Finite(-((-a) % n))
  }

  function Abs(x: int): nat { if x < 0 then -x else x }

  /**
   * JavaScript's `%` for a non-zero divisor: the remainder is zero or has the
   * sign of the dividend, its magnitude is below the divisor's, and it differs
   * from the dividend by a multiple of the divisor.
   */
  lemma JsRemIsTruncatedRemainder(a: int, n: int)
    requires n != 0
    ensures JsRem(a, n).Finite?
    ensures a >= 0 ==> JsRem(a, n).value >= 0
    ensures a < 0 ==> JsRem(a, n).value <= 0
    ensures Abs(JsRem(a, n).value) < Abs(n)
    ensures exists q :: a - JsRem(a, n).value == q * n
  {
    if a >= 0 {
      assert a - JsRem(a, n).value == (a / n) * n;
    } else {
      assert -a == ((-a) / n) * n + (-a) % n;
      assert a - JsRem(a, n).value == (-((-a) / n)) * n;
    }
  }

  /** The index updater exactly as written, including a deck of length zero. */
  function JsAdvance(prev: JsNumber, len: nat): (r: JsNumber)
    ensures prev == NaN || len == 0 ==> r == NaN
    ensures prev.Finite? && prev.value >= 0 && len > 0 ==> r.Finite? && 0 <= r.value < len
  {
    match prev
    case NaN => NaN
    case Finite(p) => JsRem(p + 1, len)
  }

  /** `k` applications of the as-written updater. */
  function JsAdvanceN(prev: JsNumber, len: nat, k: nat): JsNumber {
    if k == 0 then prev else JsAdvance(JsAdvanceN(prev, len, k - 1), len)
  }

  /** The card at `position` is on top when the current index equals it (`index === currentIndex`). */
  predicate ShowsCard(currentIndex: JsNumber, position: nat): (b: bool)
    ensures currentIndex == NaN ==> !b
    ensures b ==> currentIndex.Finite? && currentIndex.value >= 0
  {
    currentIndex == Finite(position)
  }

  /**
   * As written, one swipe on an empty deck (the buttons stay active before the
   * catalog has loaded) turns the index into NaN, and from then on no number of
   * further advances, whatever the deck's length, puts any card on top.
   */
  lemma {:induction false} EmptyDeckIndexIsLost(len: nat, k: nat, i: nat)
    ensures JsAdvance(Finite(0), 0) == NaN
    ensures JsAdvanceN(NaN, len, k) == NaN
    ensures !ShowsCard(JsAdvanceN(JsAdvance(Finite(0), 0), len, k), i)
  {
    if k > 0 {
      EmptyDeckIndexIsLost(len, k - 1, i);
    }
  }

  /** The guarded index updater: the next card, wrapping after the last; an empty deck keeps index 0. */
  function NextIndex(prev: nat, len: nat): (r: nat)
    ensures len == 0 ==> r == 0
    ensures len > 0 ==> r < len
    ensures len > 0 && prev + 1 < len ==> r == prev + 1
    ensures len > 0 && prev + 1 == len ==> r == 0
  {
    if len == 0 then 0 else (prev + 1) % len
  }

  /** On every non-empty deck the guarded updater agrees with the source's expression. */
  lemma NextIndexAgrees(prev: nat, len: nat)
    requires len > 0
    ensures JsAdvance(Finite(prev), len) == Finite(NextIndex(prev, len))
  {
  }

  /** `k` applications of the guarded updater. */
  function NextIndexN(prev: nat, len: nat, k: nat): nat {
    if k == 0 then prev else NextIndex(NextIndexN(prev, len, k - 1), len)
  }

  lemma MulAtLeast(d: int, n: int)
    requires n > 0 && d >= 1
    ensures d * n >= n
  {
    if d > 1 {
      MulAtLeast(d - 1, n);
      assert d * n == (d - 1) * n + n;
    }
  }

  /** Division with remainder is unique. */
  lemma ModUnique(x: int, q: int, r: int, n: int)
    requires n > 0 && 0 <= r < n && x == q * n + r
    ensures x % n == r
  {
    var q', r' := x / n, x % n;
    assert x == q' * n + r';
    assert (q - q') * n == r' - r;
    assert (q' - q) * n == r - r';
    if q - q' >= 1 { MulAtLeast(q - q', n); }
    if q' - q >= 1 { MulAtLeast(q' - q, n); }
  }

  lemma ModSucc(a: nat, n: nat)
    requires n > 0
    ensures (a % n + 1) % n == (a + 1) % n
  {
    var q := a / n;
    assert a == q * n + a % n;
    if a % n + 1 == n {
      assert a + 1 == (q + 1) * n + 0;
      ModUnique(a + 1, q + 1, 0, n);
      ModUnique(n, 1, 0, n);
    } else {
      ModUnique(a + 1, q, a % n + 1, n);
      ModUnique(a % n + 1, 0, a % n + 1, n);
    }
  }

  /** After `k` swipes the deck shows card `(prev + k) mod len`: it cycles through every card in order. */
  lemma {:induction false} NextIndexCycles(prev: nat, len: nat, k: nat)
    requires prev < len
    ensures NextIndexN(prev, len, k) == (prev + k) % len
  {
    if k > 0 {
      NextIndexCycles(prev, len, k - 1);
      ModSucc(prev + k - 1, len);
    }
  }

  /** The home screen's local state together with the user's decision store. */
  class HomeScreen {
    var sports: seq<Sport>
    var currentIndex: nat
    const store: DecisionStore

    /** Mounting: an empty deck at index 0, before the catalog arrives. */
    constructor (store: DecisionStore)
      ensures sports == [] && currentIndex == 0 && this.store == store
    {
      sports, currentIndex := [], 0;
      this.store := store;
    }

    /** The catalog GET has answered with `catalog`. */
    method LoadCatalog(catalog: seq<Sport>)
      modifies this
      ensures sports == catalog && currentIndex == old(currentIndex)
    {
      sports := catalog;
    }

    /** The card on top, if the index points into the deck. */
    function CurrentCard(): (c: Wrappers.Option<Sport>)
      reads this
      ensures c.Some? <==> currentIndex < |sports|
      ensures c.Some? ==> c.value == sports[currentIndex]
    {
      if currentIndex < |sports| then Wrappers.Some(sports[currentIndex]) else Wrappers.None
    }

    /**
     * A swipe or button press on the top card: reconcile the decision for the
     * card on top, then advance the index. With no card at the index the
     * source's `sport` is undefined; a signed-in handler then fails on its
     * query, the failure is caught, and the store is left as it was.
     */
    method HandleSwipe(d: Direction, signedIn: bool)
      modifies this, store
      ensures sports == old(sports)
      ensures store.Snapshot() ==
        if signedIn && old(currentIndex) < |sports|
        then Reconcile(old(store.Snapshot()), d, sports[old(currentIndex)])
        else old(store.Snapshot())
      ensures currentIndex == NextIndex(old(currentIndex), |sports|)
      ensures |sports| > 0 ==> currentIndex < |sports|
    {
      var card := CurrentCard();
      if card.Some? {
        store.Swipe(d, card.value, signedIn);
      }
      currentIndex := NextIndex(currentIndex, |sports|);
    }
  }
}
