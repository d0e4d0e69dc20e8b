/**
 * The history screen: it reads both decision collections and shows one list in
 * which, position by position, the liked entry (tagged with a heart) comes
 * before the unliked entry (tagged with a cross).
 */
module History {
  import opened Wrappers
  import opened Sports
  import Decisions

  /** The icon name written into a history document. */
  datatype Icon = Heart | Close

  /** A document's data as read from a collection, with the display-only `icon` field. */
  datatype Doc = Doc(sport: Sport, icon: Option<Icon>)

  function Max(a: nat, b: nat): nat { if a < b then b else a }
  function Min(a: nat, b: nat): nat { if a < b then a else b }

  /** The data of every document of a collection, in snapshot order; stored entries carry no icon. */
  function Data(s: seq<Sport>): (r: seq<Doc>)
    ensures |r| == |s|
    ensures forall i :: 0 <= i < |s| ==> r[i] == Doc(s[i], None)
  {
    seq(|s|, i requires 0 <= i < |s| => Doc(s[i], None))
  }

  /** Every document of `s` with its icon set to `icon`. */
  function TagAll(s: seq<Doc>, icon: Icon): (r: seq<Doc>)
    ensures |r| == |s|
    ensures forall i :: 0 <= i < |s| ==> r[i] == s[i].(icon := Some(icon))
  {
    if s == [] then [] else [s[0].(icon := Some(icon))] + TagAll(s[1..], icon)
  }

  /** The entries pushed in round `i` of the loop: liked[i] with a heart, then unliked[i] with a cross. */
  function Round(liked: seq<Doc>, unliked: seq<Doc>, i: nat): seq<Doc> {
    (if i < |liked| then [liked[i].(icon := Some(Heart))] else [])
    + (if i < |unliked| then [unliked[i].(icon := Some(Close))] else [])
  }

  /** The output after the first `n` rounds. */
  function Rounds(liked: seq<Doc>, unliked: seq<Doc>, n: nat): seq<Doc> {
    if n == 0 then [] else Rounds(liked, unliked, n - 1) + Round(liked, unliked, n - 1)
  }

  /** The history list: all `max(|liked|, |unliked|)` rounds; it holds every entry of both lists. */
  function Interleave(liked: seq<Doc>, unliked: seq<Doc>): (r: seq<Doc>)
    ensures |r| == |liked| + |unliked|
  {
    RoundsLength(liked, unliked, Max(|liked|, |unliked|));
    Rounds(liked, unliked, Max(|liked|, |unliked|))
  }

  /** The entries of `s` that carry icon `icon`, in order. */
  function WithIcon(s: seq<Doc>, icon: Icon): seq<Doc> {
    if s == [] then []
    else (if s[0].icon == Some(icon) then [s[0]] else []) + WithIcon(s[1..], icon)
  }

  lemma {:induction false} WithIconAppend(a: seq<Doc>, b: seq<Doc>, icon: Icon)
    ensures WithIcon(a + b, icon) == WithIcon(a, icon) + WithIcon(b, icon)
  {
    if a != [] {
      assert (a + b)[1..] == a[1..] + b;
      WithIconAppend(a[1..], b, icon);
    } else {
      assert a + b == b;
    }
  }

  lemma {:induction false} TagAllAppend(a: seq<Doc>, b: seq<Doc>, icon: Icon)
    ensures TagAll(a + b, icon) == TagAll(a, icon) + TagAll(b, icon)
  {
    var l, r := TagAll(a + b, icon), TagAll(a, icon) + TagAll(b, icon);
    assert |l| == |r|;
    forall i | 0 <= i < |l| ensures l[i] == r[i] {
      if i < |a| { assert (a + b)[i] == a[i]; } else { assert (a + b)[i] == b[i - |a|]; }
    }
  }

  lemma {:induction false} RoundsLength(liked: seq<Doc>, unliked: seq<Doc>, n: nat)
    ensures |Rounds(liked, unliked, n)| == Min(n, |liked|) + Min(n, |unliked|)
  {
    if n > 0 {
      RoundsLength(liked, unliked, n - 1);
    }
  }

  lemma {:induction false} RoundsPrefix(liked: seq<Doc>, unliked: seq<Doc>, n: nat, m: nat)
    requires n <= m
    ensures |Rounds(liked, unliked, n)| <= |Rounds(liked, unliked, m)|
    ensures Rounds(liked, unliked, m)[..|Rounds(liked, unliked, n)|] == Rounds(liked, unliked, n)
  {
    if n < m {
      RoundsPrefix(liked, unliked, n, m - 1);
      var a, b := Rounds(liked, unliked, n), Rounds(liked, unliked, m - 1);
      assert Rounds(liked, unliked, m)[..|b|] == b;
      assert Rounds(liked, unliked, m)[..|a|] == b[..|a|];
    }
  }

  /** While both collections last, position 2i holds liked[i] with a heart and 2i+1 holds unliked[i] with a cross. */
  lemma InterleavePairs(liked: seq<Doc>, unliked: seq<Doc>, i: nat)
    requires i < |liked| && i < |unliked|
    ensures 2 * i + 1 < |Interleave(liked, unliked)|
    ensures Interleave(liked, unliked)[2 * i] == liked[i].(icon := Some(Heart))
    ensures Interleave(liked, unliked)[2 * i + 1] == unliked[i].(icon := Some(Close))
  {
    var full := Interleave(liked, unliked);
    RoundsLength(liked, unliked, i);
    RoundsLength(liked, unliked, i + 1);
    RoundsPrefix(liked, unliked, i + 1, Max(|liked|, |unliked|));
    var pre := Rounds(liked, unliked, i + 1);
    assert pre == Rounds(liked, unliked, i) + [liked[i].(icon := Some(Heart)), unliked[i].(icon := Some(Close))];
    assert full[2 * i] == pre[2 * i];
    assert full[2 * i + 1] == pre[2 * i + 1];
  }

  /** One round contributes the liked document to the hearts and the unliked one to the crosses. */
  lemma RoundWithIcon(liked: seq<Doc>, unliked: seq<Doc>, i: nat)
    ensures WithIcon(Round(liked, unliked, i), Heart) == if i < |liked| then [liked[i].(icon := Some(Heart))] else []
    ensures WithIcon(Round(liked, unliked, i), Close) == if i < |unliked| then [unliked[i].(icon := Some(Close))] else []
  {
    var h := if i < |liked| then [liked[i].(icon := Some(Heart))] else [];
    var c := if i < |unliked| then [unliked[i].(icon := Some(Close))] else [];
    WithIconAppend(h, c, Heart);
    WithIconAppend(h, c, Close);
  }

  lemma RoundsWithIconStep(liked: seq<Doc>, unliked: seq<Doc>, i: nat)
    ensures WithIcon(Rounds(liked, unliked, i + 1), Heart)
         == WithIcon(Rounds(liked, unliked, i), Heart) + (if i < |liked| then [liked[i].(icon := Some(Heart))] else [])
    ensures WithIcon(Rounds(liked, unliked, i + 1), Close)
         == WithIcon(Rounds(liked, unliked, i), Close) + (if i < |unliked| then [unliked[i].(icon := Some(Close))] else [])
  {
    var done, row := Rounds(liked, unliked, i), Round(liked, unliked, i);
    assert Rounds(liked, unliked, i + 1) == done + row;
    WithIconAppend(done, row, Heart);
    WithIconAppend(done, row, Close);
    RoundWithIcon(liked, unliked, i);
  }

  /** Tagging the first `n + 1` documents adds the tagged document `n` to the tagged first `n`. */
  lemma TagAllPrefixStep(s: seq<Doc>, n: nat, icon: Icon)
    requires n < |s|
    ensures TagAll(s[..n + 1], icon) == TagAll(s[..n], icon) + [s[n].(icon := Some(icon))]
  {
    assert s[..n + 1] == s[..n] + [s[n]];
    TagAllAppend(s[..n], [s[n]], icon);
  }

  lemma {:induction false} RoundsHearts(liked: seq<Doc>, unliked: seq<Doc>, n: nat)
    ensures WithIcon(Rounds(liked, unliked, n), Heart) == TagAll(liked[..Min(n, |liked|)], Heart)
  {
    if n > 0 {
      RoundsHearts(liked, unliked, n - 1);
      RoundsWithIconStep(liked, unliked, n - 1);
      if n - 1 < |liked| {
        TagAllPrefixStep(liked, n - 1, Heart);
      }
    }
  }

  lemma {:induction false} RoundsCrosses(liked: seq<Doc>, unliked: seq<Doc>, n: nat)
    ensures WithIcon(Rounds(liked, unliked, n), Close) == TagAll(unliked[..Min(n, |unliked|)], Close)
  {
    if n > 0 {
      RoundsCrosses(liked, unliked, n - 1);
      RoundsWithIconStep(liked, unliked, n - 1);
      if n - 1 < |unliked| {
        TagAllPrefixStep(unliked, n - 1, Close);
      }
    }
  }

  /**
   * Read by icon, the history gives back each collection whole and in order:
   * the hearts are the liked documents, the crosses the unliked ones.
   */
  lemma InterleaveWithIcon(liked: seq<Doc>, unliked: seq<Doc>)
    ensures WithIcon(Interleave(liked, unliked), Heart) == TagAll(liked, Heart)
    ensures WithIcon(Interleave(liked, unliked), Close) == TagAll(unliked, Close)
  {
    var l, u := liked, unliked;
    RoundsHearts(l, u, Max(|l|, |u|));
    RoundsCrosses(l, u, Max(|l|, |u|));
    assert l[..Min(Max(|l|, |u|), |l|)] == l;
    assert u[..Min(Max(|l|, |u|), |u|)] == u;
  }

  lemma {:induction false} RoundsTagged(liked: seq<Doc>, unliked: seq<Doc>, n: nat)
    ensures forall k :: 0 <= k < |Rounds(liked, unliked, n)| ==> Rounds(liked, unliked, n)[k].icon.Some?
  {
    if n > 0 {
      RoundsTagged(liked, unliked, n - 1);
    }
  }

  /** Every history entry is tagged, with a heart or with a cross. */
  lemma InterleaveTagged(liked: seq<Doc>, unliked: seq<Doc>)
    ensures forall k :: 0 <= k < |Interleave(liked, unliked)| ==> Interleave(liked, unliked)[k].icon.Some?
  {
    RoundsTagged(liked, unliked, Max(|liked|, |unliked|));
  }

  lemma {:induction false} RoundsOnlyLiked(liked: seq<Doc>, n: nat)
    requires n <= |liked|
    ensures Rounds(liked, [], n) == TagAll(liked[..n], Heart)
  {
    if n > 0 {
      RoundsOnlyLiked(liked, n - 1);
      assert Round(liked, [], n - 1) == [liked[n - 1].(icon := Some(Heart))];
      TagAllPrefixStep(liked, n - 1, Heart);
    }
  }

  lemma {:induction false} RoundsOnlyUnliked(unliked: seq<Doc>, n: nat)
    requires n <= |unliked|
    ensures Rounds([], unliked, n) == TagAll(unliked[..n], Close)
  {
    if n > 0 {
      RoundsOnlyUnliked(unliked, n - 1);
      assert Round([], unliked, n - 1) == [unliked[n - 1].(icon := Some(Close))];
      TagAllPrefixStep(unliked, n - 1, Close);
    }
  }

  /** With one collection empty, the history is the other collection, tagged, in order. */
  lemma InterleaveOneSided(liked: seq<Doc>, unliked: seq<Doc>)
    ensures unliked == [] ==> Interleave(liked, unliked) == TagAll(liked, Heart)
    ensures liked == [] ==> Interleave(liked, unliked) == TagAll(unliked, Close)
  {
    if unliked == [] {
      RoundsOnlyLiked(liked, |liked|);
      assert liked[..|liked|] == liked;
    }
    if liked == [] {
      RoundsOnlyUnliked(unliked, |unliked|);
      assert unliked[..|unliked|] == unliked;
    }
  }

  /**
   * The loop of the history fetch: for each position below the longer length it
   * tags the liked document in place and pushes it, then the unliked one.
   */
  method BuildHistory(likedDocs: array<Doc>, unlikedDocs: array<Doc>) returns (sportsData: seq<Doc>)
    requires likedDocs != unlikedDocs
    modifies likedDocs, unlikedDocs
    ensures sportsData == Interleave(old(likedDocs[..]), old(unlikedDocs[..]))
    ensures likedDocs[..] == TagAll(old(likedDocs[..]), Heart)
    ensures unlikedDocs[..] == TagAll(old(unlikedDocs[..]), Close)
  {
    ghost var liked, unliked := likedDocs[..], unlikedDocs[..];
    var totalSize := Max(unlikedDocs.Length, likedDocs.Length);
    sportsData := [];
    for i := 0 to totalSize
      invariant sportsData == Rounds(liked, unliked, i)
      invariant forall k :: 0 <= k < likedDocs.Length ==>
        likedDocs[k] == if k < i then liked[k].(icon := Some(Heart)) else liked[k]
      invariant forall k :: 0 <= k < unlikedDocs.Length ==>
        unlikedDocs[k] == if k < i then unliked[k].(icon := Some(Close)) else unliked[k]
    {
      if i < likedDocs.Length {
        likedDocs[i] := likedDocs[i].(icon := Some(Heart));
        sportsData := sportsData + [likedDocs[i]];
      }
      if i < unlikedDocs.Length {
        unlikedDocs[i] := unlikedDocs[i].(icon := Some(Close));
        sportsData := sportsData + [unlikedDocs[i]];
      }
    }
  }

  /** The history screen's list state. */
  class HistoryView {
    var sports: seq<Doc>

    /** Mounting: the list starts empty. */
    constructor ()
      ensures sports == []
    {
      sports := [];
    }

    /**
     * The fetch effect: with a signed-in user, read both collections and show
     * their interleaving; without one, leave the list as it is.
     */
    method FetchData(signedIn: bool, store: Decisions.DecisionStore)
      modifies this
      ensures sports == if signedIn then Interleave(Data(store.liked), Data(store.unliked)) else old(sports)
    {
      if signedIn {
        var unlikedSnapshot, likedSnapshot := store.unliked, store.liked;
        var unlikedSportsDocs := new Doc[|unlikedSnapshot|](i requires 0 <= i < |unlikedSnapshot| => Doc(unlikedSnapshot[i], None));
        var likedSportsDocs := new Doc[|likedSnapshot|](i requires 0 <= i < |likedSnapshot| => Doc(likedSnapshot[i], None));
        assert unlikedSportsDocs[..] == Data(unlikedSnapshot);
        assert likedSportsDocs[..] == Data(likedSnapshot);
        sports := BuildHistory(likedSportsDocs, unlikedSportsDocs);
      }
    }
  }

  /** With no signed-in user the history screen keeps its initial, empty list. */
  method NoUserHistoryIsEmpty(store: Decisions.DecisionStore) returns (view: HistoryView)
    ensures view.sports == []
  {
    view := new HistoryView();
    view.FetchData(false, store);
  }
}
