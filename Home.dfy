/**
  The home screen (src/ui/home.rs), reduced to what it decides: a sidebar in
  a 15-column left region, and a banner in the rest only once home data has
  arrived, whose tips line is " Tips: " followed by the tips joined by " | ".
*/
module Home {
  import opened Wrappers
  import opened Strings
  import opened UiState

  const SIDEBAR_WIDTH: nat := 15
  const BANNER_TITLE: string := "公告"
  const TIPS_PREFIX: string := " Tips: "
  const TIPS_SEP: string := " | "

  /** The sidebar: its width and the highlighted entry. */
  datatype Sidebar = Sidebar(width: nat, selected: nat)

  /** The banner's three texts: title, tips line and notice. */
  datatype Banner = Banner(title: string, tips: string, notice: string)

  /** What one call of `render` draws. */
  datatype Frame = Frame(sidebar: Sidebar, banner: Option<Banner>)

  /** The tips line: empty exactly when there are no tips. */
  function TipsText(tips: seq<string>): (r: string)
    ensures r == [] <==> tips == []
    ensures tips != [] ==> StartsWith(r, TIPS_PREFIX) && r[|TIPS_PREFIX|..] == Join(tips, TIPS_SEP)
  {
    if tips != [] then TIPS_PREFIX + Join(tips, TIPS_SEP) else []
  }

  /**
    `home::render`: the sidebar is always drawn and highlights the selected
    tab; the banner is drawn exactly when home data is present, with the
    fixed title, the tips line and the notice.
  */
  function Render(state: AppState): (f: Frame)
    ensures f.sidebar.width == SIDEBAR_WIDTH && f.sidebar.selected == state.selectedTab
    ensures f.banner.Some? <==> state.homeData.Some?
    ensures state.homeData.Some? ==>
      f.banner.value.title == BANNER_TITLE
      && f.banner.value.tips == TipsText(state.homeData.value.tips)
      && f.banner.value.notice == state.homeData.value.noticeHtml
  {
    var sidebar := Sidebar(SIDEBAR_WIDTH, state.selectedTab);
    match state.homeData
    case Some(data) => Frame(sidebar, Some(Banner(BANNER_TITLE, TipsText(data.tips), data.noticeHtml)))
    case None => Frame(sidebar, None)
  }

  // ---------------------------------------------------------------------
  // The joined tips can be taken apart again

  predicate NoBar(t: string)
  {
    forall i :: 0 <= i < |t| ==> t[i] != '|'
  }

  /** Splitting at every " | ", left to right: the reference the joined tips are checked against. */
  function SplitTips(s: string): (r: seq<string>)
    ensures |r| >= 1
    decreases |s|
  {
    if |s| < |TIPS_SEP| then [s]
    else if s[..|TIPS_SEP|] == TIPS_SEP then [""] + SplitTips(s[|TIPS_SEP|..])
    else
      var rest := SplitTips(s[1..]);
      [[s[0]] + rest[0]] + rest[1..]
  }

  lemma {:induction false} SplitSingle(t: string)
    requires NoBar(t)
    ensures SplitTips(t) == [t]
    decreases |t|
  {
    if |t| >= |TIPS_SEP| {
      assert t[..|TIPS_SEP|][1] == t[1];
      SplitSingle(t[1..]);
      assert [t[0]] + t[1..] == t;
    }
  }

  lemma {:induction false} SplitAtSeparator(t: string, rest: string)
    requires NoBar(t)
    ensures SplitTips(t + TIPS_SEP + rest) == [t] + SplitTips(rest)
    decreases |t|
  {
    var s := t + TIPS_SEP + rest;
    if t == [] {
      assert s == TIPS_SEP + rest;
      assert s[..|TIPS_SEP|] == TIPS_SEP;
      assert s[|TIPS_SEP|..] == rest;
    } else {
      assert s[1] == (if |t| > 1 then t[1] else ' ');
      assert s[..|TIPS_SEP|] != TIPS_SEP by {
        assert s[..|TIPS_SEP|][1] == s[1];
      }
      assert s[1..] == t[1..] + TIPS_SEP + rest;
      SplitAtSeparator(t[1..], rest);
      assert [t[0]] + t[1..] == t;
    }
  }

  /** Tips without a '|' in them come back, in order, from splitting their join. */
  lemma {:induction false} SplitJoin(tips: seq<string>)
    requires tips != []
    requires forall i :: 0 <= i < |tips| ==> NoBar(tips[i])
    ensures SplitTips(Join(tips, TIPS_SEP)) == tips
    decreases |tips|
  {
    if |tips| == 1 {
      SplitSingle(tips[0]);
    } else {
      SplitJoin(tips[1..]);
      SplitAtSeparator(tips[0], Join(tips[1..], TIPS_SEP));
      assert [tips[0]] + tips[1..] == tips;
    }
  }

  /** The round trip for the whole tips line: strip the prefix, split, get the tips back. */
  lemma TipsTextRoundTrip(tips: seq<string>)
    requires tips != []
    requires forall i :: 0 <= i < |tips| ==> NoBar(tips[i])
    ensures SplitTips(TipsText(tips)[|TIPS_PREFIX|..]) == tips
  {
    SplitJoin(tips);
  }

  // ---------------------------------------------------------------------
  // Exactly one separator between neighbouring tips

  function CountBars(s: string): nat
  {
    if s == [] then 0 else (if s[0] == '|' then 1 else 0) + CountBars(s[1..])
  }

  lemma {:induction false} CountBarsAppend(a: string, b: string)
    ensures CountBars(a + b) == CountBars(a) + CountBars(b)
    decreases |a|
  {
    if a == [] {
      assert a + b == b;
    } else {
      assert (a + b)[1..] == a[1..] + b;
      CountBarsAppend(a[1..], b);
    }
  }

  function SumBars(tips: seq<string>): nat
  {
    if tips == [] then 0 else CountBars(tips[0]) + SumBars(tips[1..])
  }

  /** The joined tips hold the tips' own bars plus exactly one per separator: `|tips| - 1` of them. */
  lemma {:induction false} JoinBarCount(tips: seq<string>)
    requires tips != []
    ensures CountBars(Join(tips, TIPS_SEP)) == SumBars(tips) + |tips| - 1
    decreases |tips|
  {
    if |tips| == 1 {
      assert tips[1..] == [];
    } else {
      JoinBarCount(tips[1..]);
      var rest := Join(tips[1..], TIPS_SEP);
      CountBarsAppend(tips[0] + TIPS_SEP, rest);
      CountBarsAppend(tips[0], TIPS_SEP);
      assert CountBars(TIPS_SEP) == 1;
    }
  }
}
