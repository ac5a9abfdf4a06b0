/** The inline-style toggles of src/components/WidgetTypographyTray.tsx.
    The tray owns no state; a toggle reports the new style list to its
    parent. */
module Typography {
  import opened Common

  datatype TypoStyle = Bold | Italic | Underline | Strike

  /** `selectedTypoStyles.indexOf(style)`. */
  function IndexOf(styles: seq<TypoStyle>, s: TypoStyle): (i: int)
    ensures -1 <= i < |styles|
    ensures i >= 0 ==> styles[i] == s && s !in styles[..i]
    ensures i == -1 <==> s !in styles
    decreases |styles|
  {
    if |styles| == 0 then -1
    else if styles[0] == s then 0
    else
      var j := IndexOf(styles[1..], s);
      assert j >= 0 ==> styles[1..][..j] == styles[1..j + 1];
      if j < 0 then -1 else j + 1
  }

  /** `handleTypoStyleChange(style)`: appends an absent style, and
      otherwise removes its first occurrence. */
  function ToggleStyle(styles: seq<TypoStyle>, s: TypoStyle): (r: seq<TypoStyle>)
    ensures s !in styles ==> r == styles + [s]
    ensures s in styles ==>
              var i := IndexOf(styles, s);
              |r| == |styles| - 1 && r == styles[..i] + styles[i + 1..]
    ensures forall t :: t != s ==> multiset(r)[t] == multiset(styles)[t]
    ensures s in styles ==> multiset(r)[s] == multiset(styles)[s] - 1
    ensures s !in styles ==> multiset(r)[s] == 1
  {
    var index := IndexOf(styles, s);
    if index == -1 then styles + [s]
    else
      assert styles == styles[..index] + [s] + styles[index + 1..];
      Slice(styles, 0, index) + SliceFrom(styles, index + 1)
  }

  /** `selectedStyleSet.has(style)`: whether a toggle is drawn active. */
  predicate IsActive(styles: seq<TypoStyle>, s: TypoStyle) {
    s in set t | t in styles
  }

  /** On a list without duplicates a toggle flips exactly the pressed
      button and keeps the list free of duplicates. */
  lemma ToggleFlipsOnlyPressed(styles: seq<TypoStyle>, s: TypoStyle)
    requires Distinct(styles)
    ensures var r := ToggleStyle(styles, s);
            && Distinct(r)
            && (IsActive(r, s) <==> !IsActive(styles, s))
            && forall t :: t != s ==> (IsActive(r, t) <==> IsActive(styles, t))
  {
    var r := ToggleStyle(styles, s);
    forall t | t != s
      ensures IsActive(r, t) <==> IsActive(styles, t)
    {
      assert t in r <==> multiset(r)[t] > 0;
      assert t in styles <==> multiset(styles)[t] > 0;
    }
    DistinctCounts(styles);
    assert s in r <==> multiset(r)[s] > 0;
    CountsDistinct(r);
  }

  /** Without duplicates every element occurs once. */
  lemma {:induction false} DistinctCounts(xs: seq<TypoStyle>)
    requires Distinct(xs)
    ensures forall t :: multiset(xs)[t] <= 1
    decreases |xs|
  {
    if |xs| > 0 {
      assert Distinct(xs[1..]) by {
        forall i, j | 0 <= i < j < |xs[1..]|
          ensures xs[1..][i] != xs[1..][j]
        {
          assert xs[1..][i] == xs[i + 1] && xs[1..][j] == xs[j + 1];
        }
      }
      DistinctCounts(xs[1..]);
      assert xs == [xs[0]] + xs[1..];
      assert xs[0] !in xs[1..] by {
        forall k | 0 <= k < |xs[1..]|
          ensures xs[1..][k] != xs[0]
        {
          assert xs[1..][k] == xs[k + 1];
        }
      }
    }
  }

  /** Every element occurring at most once means no duplicates. */
  lemma CountsDistinct(xs: seq<TypoStyle>)
    requires forall t :: multiset(xs)[t] <= 1
    ensures Distinct(xs)
  {
    forall i, j | 0 <= i < j < |xs|
      ensures xs[i] != xs[j]
    {
      assert xs == xs[..i] + [xs[i]] + xs[i + 1..j] + [xs[j]] + xs[j + 1..];
      assert multiset(xs) == multiset(xs[..i]) + multiset{xs[i]} + multiset(xs[i + 1..j])
                             + multiset{xs[j]} + multiset(xs[j + 1..]);
      assert multiset(xs)[xs[i]] >= 1 + multiset{xs[j]}[xs[i]];
    }
  }

  /** With a duplicate, a toggle removes one copy and the button stays lit:
      the tray only flips on duplicate-free lists. */
  lemma DuplicateStaysActive()
    ensures ToggleStyle([Bold, Bold], Bold) == [Bold]
    ensures IsActive([Bold, Bold], Bold) && IsActive([Bold], Bold)
  {
    assert IndexOf([Bold, Bold], Bold) == 0;
  }

  /** Toggling an absent style twice gives the list back exactly. */
  lemma ToggleAbsentTwice(styles: seq<TypoStyle>, s: TypoStyle)
    requires s !in styles
    ensures ToggleStyle(ToggleStyle(styles, s), s) == styles
  {
    var r := styles + [s];
    assert forall i :: 0 <= i < |styles| ==> r[i] == styles[i];
    assert IndexOf(r, s) == |styles|;
    assert r[..|styles|] == styles;
  }

  /** Toggling a present style twice keeps the same styles but moves the
      pressed one to the end, so the list comes back reordered. */
  lemma TogglePresentTwice(styles: seq<TypoStyle>, s: TypoStyle)
    requires Distinct(styles) && s in styles
    ensures var r := ToggleStyle(ToggleStyle(styles, s), s);
            multiset(r) == multiset(styles) && r[|r| - 1] == s
  {
    var once := ToggleStyle(styles, s);
    DistinctCounts(styles);
    assert s !in once by {
      assert multiset(once)[s] == 0;
    }
    var twice := ToggleStyle(once, s);
    assert multiset(twice) == multiset(styles) by {
      forall t
        ensures multiset(twice)[t] == multiset(styles)[t]
      {
      }
    }
  }

  /** A concrete reordering: toggling bold off and on behind italic. */
  lemma ToggleTwiceReorders()
    ensures ToggleStyle(ToggleStyle([Bold, Italic], Bold), Bold) == [Italic, Bold]
  {
    assert IndexOf([Bold, Italic], Bold) == 0;
    assert ToggleStyle([Bold, Italic], Bold) == [Italic];
  }
}
