/**
 * The top-level view state machine of App.tsx: the six phases, the timed
 * transitions, the hidden skip key, the light cord and the lights-out
 * sequence, and which screen is mounted in which state. The Showcase is
 * embedded through its card sequencer, because its timers and its
 * onFinished callback reach back into this state.
 */
module App {
  import opened Wrappers
  import Showcase

  /** viewState. */
  datatype View = Splash | Transitioning | Intro | ShowcaseView | Outro | ReadyForDark

  /** The one pending timeout of the lights-out sequence. */
  datatype LightsTimer = ReadyOn | ReadyOff | FireworksOn

  /**
   * Which app is meant: the app as written; one whose Showcase cleanup
   * cancels the whole pending sequence; and one that in addition guards
   * onFinished so that it sets the outro only from the showcase view.
   */
  datatype Variant = AsWritten | CleanupOnly | Corrected

  /** The Showcase's effect cleanup cancels every pending timeout. */
  predicate Cleans(c: Variant)
  {
    c != AsWritten
  }

  /** onFinished leaves the view alone unless it is still the showcase. */
  predicate Guards(c: Variant)
  {
    c == Corrected
  }

  /**
   * The app's state: the four state hooks, the light cord's own hasPulled
   * flag, the pending lights timeout and the embedded Showcase sequencer.
   */
  datatype AppState = AppState(view: View, isDark: bool, showReady: bool, startFireworks: bool,
                               cordPulled: bool, lights: Option<LightsTimer>, cards: Showcase.Reveal)

  /**
   * What can happen: the splash button, the pending view timeout, a key
   * press, the Showcase's pending timeout, the end of the Showcase's
   * one-second exit fade, the end of the outro, the end of a drag on the
   * cord (its vertical offset) and the pending lights timeout.
   */
  datatype Event = Continue | ViewTimer | KeyDown(key: string) | ShowcaseTick | ShowcaseExited
                 | OutroComplete | CordDragEnd(offsetY: real) | LightsTick

  /** Delay of the view timeout armed in each state, in ms (none elsewhere). */
  function ViewDelay(v: View): Option<real>
  {
    match v
    case Transitioning => Some(1000.0)
    case Intro => Some(2500.0)
    case _ => None
  }

  /** Delay each lights timeout was set with, in ms. */
  function LightsDelay(t: LightsTimer): real
  {
    match t
    case ReadyOn => 1500.0
    case ReadyOff => 2500.0
    case FireworksOn => 500.0
  }

  /** How far the cord must be dragged down before it counts as a pull. */
  const PullThreshold: real := 60.0

  /** A Showcase that is not mounted and has nothing pending. */
  const Idle: Showcase.Reveal := Showcase.Reveal(Showcase.ProductCount, 0, false, false, 0, None, false)

  /** The initial render: the splash screen, lights on, nothing pending. */
  function Init(): (s: AppState)
    ensures s.view == Splash && !s.isDark && !s.showReady && !s.startFireworks
    ensures s.lights.None? && s.cards.pending.None? && !s.cards.mounted
  {
    AppState(Splash, false, false, false, false, None, Idle)
  }

  // ---------------------------------------------------------------------------
  // Keys
  // ---------------------------------------------------------------------------

  function LowerChar(c: char): char
  {
    if 'A' <= c <= 'Z' then (c as int + 32) as char else c
  }

  /** toLowerCase on the ASCII letters. */
  function ToLower(s: string): (r: string)
    ensures |r| == |s| && forall i :: 0 <= i < |s| ==> r[i] == LowerChar(s[i])
  {
    seq(|s|, i requires 0 <= i < |s| => LowerChar(s[i]))
  }

  predicate IsSkipKey(key: string)
  {
    ToLower(key) == "s"
  }

  /** The skip key is the S key, with or without Shift, and nothing else. */
  lemma SkipKeys(key: string)
    ensures IsSkipKey(key) <==> key == "s" || key == "S"
  {
    if IsSkipKey(key) {
      assert |key| == 1 && LowerChar(key[0]) == 's';
      assert key == [key[0]];
    } else {
      assert ToLower("s") == "s" && ToLower("S") == "s";
    }
  }

  // ---------------------------------------------------------------------------
  // Steps
  // ---------------------------------------------------------------------------

  /** What unmounting the Showcase leaves of its sequencer. */
  function Unmount(c: Variant, r: Showcase.Reveal): Showcase.Reveal
  {
    if Cleans(c) then Showcase.Unmounted(r) else Showcase.UnmountedAsWritten(r)
  }

  /**
   * setViewState(v). Entering the showcase view mounts the Showcase and
   * starts its sequence. Leaving it starts the exit fade: the Showcase stays
   * mounted, its timeouts still pending, until the fade ends.
   */
  function SetView(s: AppState, v: View): (t: AppState)
    ensures t.view == v && t.isDark == s.isDark && t.lights == s.lights
    ensures t.showReady == s.showReady && t.startFireworks == s.startFireworks && t.cordPulled == s.cordPulled
    ensures s.view != ShowcaseView && v == ShowcaseView ==> t.cards == Showcase.Begin(Showcase.ProductCount)
    ensures s.view == ShowcaseView || v != ShowcaseView ==> t.cards == s.cards
  {
    if s.view != ShowcaseView && v == ShowcaseView then s.(view := v, cards := Showcase.Begin(Showcase.ProductCount))
    else s.(view := v)
  }

  /** The Showcase is still mounted, fading out, after its view was left. */
  predicate Exiting(s: AppState)
  {
    s.cards.mounted && s.view != ShowcaseView
  }

  /** The onFinished callback: setViewState('outro'), or with the guard only from the showcase view. */
  function Finished(c: Variant, s: AppState): AppState
  {
    if Guards(c) && s.view != ShowcaseView then s else SetView(s, Outro)
  }

  /** The light cord is mounted. */
  predicate CordShown(s: AppState)
  {
    s.view == ReadyForDark && !s.isDark
  }

  /**
   * One event. An event whose source is not mounted or not pending changes
   * nothing: the splash button acts only in the splash view, the view
   * timeout only in the two states that arm it (their cleanup clears it),
   * the exit fade only while the Showcase is leaving, the outro's
   * completion only in the outro view and the cord only while it is shown.
   * The Showcase's timeouts fire whenever one is pending, whatever the view
   * and mounted or not. The splash's and the cord's own exit fades, during
   * which their buttons still respond, are not modelled.
   */
  function StepWith(c: Variant, s: AppState, e: Event): AppState
  {
    match e
    case Continue =>
      if s.view == Splash then SetView(s, Transitioning) else s
    case ViewTimer =>
      if s.view == Transitioning then SetView(s, Intro)
      else if s.view == Intro then SetView(s, ShowcaseView)
      else s
    case KeyDown(key) =>
      if IsSkipKey(key) && s.view != ReadyForDark && !s.isDark then SetView(s, ReadyForDark) else s
    case ShowcaseTick =>
      if s.cards.pending.None? then s
      else
        var r := Showcase.Fire(s.cards);
        if r.finished > s.cards.finished then Finished(c, s.(cards := r))
        else s.(cards := r)
    case ShowcaseExited =>
      if Exiting(s) then s.(cards := Unmount(c, s.cards)) else s
    case OutroComplete =>
      if s.view == Outro then SetView(s, ReadyForDark) else s
    case CordDragEnd(y) =>
      if CordShown(s) && y > PullThreshold && !s.cordPulled
      then s.(cordPulled := true, isDark := true, lights := Some(ReadyOn))
      else s
    case LightsTick =>
      match s.lights
      case None => s
      case Some(ReadyOn) => s.(showReady := true, lights := Some(ReadyOff))
      case Some(ReadyOff) => s.(showReady := false, lights := Some(FireworksOn))
      case Some(FireworksOn) => s.(startFireworks := true, lights := None)
  }

  /** The app as written. */
  function Step(s: AppState, e: Event): AppState
  {
    StepWith(AsWritten, s, e)
  }

  function Run(c: Variant, s: AppState, es: seq<Event>): AppState
    decreases |es|
  {
    if es == [] then s else Run(c, StepWith(c, s, es[0]), es[1..])
  }

  lemma {:induction false} RunAppend(c: Variant, s: AppState, a: seq<Event>, b: seq<Event>)
    ensures Run(c, s, a + b) == Run(c, Run(c, s, a), b)
    decreases |a|
  {
    if a != [] {
      assert (a + b)[0] == a[0] && (a + b)[1..] == a[1..] + b;
      var t := StepWith(c, s, a[0]);
      RunAppend(c, t, a[1..], b);
    } else {
      assert a + b == b;
    }
  }

  // ---------------------------------------------------------------------------
  // Properties of single steps
  // ---------------------------------------------------------------------------

  /**
   * The two timed transitions, transitioning to intro and intro to showcase;
   * the view timeout acts exactly in the states that arm one.
   */
  lemma ViewTimers(c: Variant, s: AppState)
    ensures s.view == Transitioning ==> StepWith(c, s, ViewTimer).view == Intro
    ensures s.view == Intro ==> StepWith(c, s, ViewTimer).view == ShowcaseView
    ensures s.view == Intro ==> StepWith(c, s, ViewTimer).cards == Showcase.Begin(Showcase.ProductCount)
    ensures ViewDelay(s.view).Some? <==> StepWith(c, s, ViewTimer) != s
  {
  }

  /**
   * The skip key jumps to the light cord from any state before it and while
   * the lights are on; any other key, or the skip key later, changes nothing.
   */
  lemma SkipKey(c: Variant, s: AppState, key: string)
    ensures StepWith(c, s, KeyDown(key)).view == ReadyForDark <==>
      s.view == ReadyForDark || ((key == "s" || key == "S") && !s.isDark)
    ensures StepWith(c, s, KeyDown(key)) != s <==>
      (key == "s" || key == "S") && s.view != ReadyForDark && !s.isDark
  {
    SkipKeys(key);
  }

  /**
   * A pull counts once: a drag of more than 60 turns the lights off and
   * arms the first lights timeout; shorter drags and every later drag do
   * nothing.
   */
  lemma CordPull(c: Variant, s: AppState, y: real)
    ensures StepWith(c, s, CordDragEnd(y)) != s <==> CordShown(s) && y > PullThreshold && !s.cordPulled
    ensures CordShown(s) && y > PullThreshold && !s.cordPulled ==>
      var t := StepWith(c, s, CordDragEnd(y));
      t.isDark && t.lights == Some(ReadyOn) && !CordShown(t) && StepWith(c, t, CordDragEnd(y)) == t
  {
  }

  /**
   * onFinished as written sets the outro from any view; with the guard it
   * does so only from the showcase view.
   */
  lemma FinishedView(c: Variant, s: AppState)
    ensures !Guards(c) ==> Finished(c, s).view == Outro
    ensures Guards(c) ==> (Finished(c, s).view == Outro <==> s.view == ShowcaseView || s.view == Outro)
    ensures Finished(c, s).cards == s.cards && Finished(c, s).isDark == s.isDark
  {
  }

  /** Lights, fireworks and the cord flag are never switched back. */
  lemma Monotone(c: Variant, s: AppState, e: Event)
    ensures s.isDark ==> StepWith(c, s, e).isDark
    ensures s.startFireworks ==> StepWith(c, s, e).startFireworks
    ensures s.cordPulled ==> StepWith(c, s, e).cordPulled
  {
  }

  lemma {:induction false} RunMonotone(c: Variant, s: AppState, es: seq<Event>)
    ensures s.isDark ==> Run(c, s, es).isDark
    ensures s.startFireworks ==> Run(c, s, es).startFireworks
    decreases |es|
  {
    if es != [] {
      Monotone(c, s, es[0]);
      RunMonotone(c, StepWith(c, s, es[0]), es[1..]);
    }
  }

  // ---------------------------------------------------------------------------
  // The invariant
  // ---------------------------------------------------------------------------

  /** Position of a phase in the intended order. */
  function Rank(v: View): nat
  {
    match v
    case Splash => 0
    case Transitioning => 1
    case Intro => 2
    case ShowcaseView => 3
    case Outro => 4
    case ReadyForDark => 5
  }

  /**
   * What holds between events: the Showcase sequencer is consistent, idle
   * before the showcase view and mounted in it, and mounted afterwards only
   * while it fades out; with the corrected cleanup nothing of it is pending
   * once it is unmounted. The outro only follows onFinished. The lights are
   * off exactly once the cord was pulled, at the cord's phase or, as
   * long as onFinished is unguarded, in the outro. The lights timeouts
   * follow each other with "READY?" shown exactly between the first and
   * the second, and the fireworks start with the third.
   */
  ghost predicate AppInv(c: Variant, s: AppState)
  {
    && Showcase.Inv(s.cards) && s.cards.total == Showcase.ProductCount
    && (Rank(s.view) < 3 ==> s.cards == Idle)
    && (s.view == ShowcaseView ==> s.cards.mounted)
    && (s.cards.mounted ==> Rank(s.view) >= 3)
    && (Cleans(c) && s.cards.pending.Some? ==> s.cards.mounted)
    && (s.view == Outro ==> s.cards.finished == 1)
    && (s.isDark <==> s.cordPulled)
    && (s.isDark ==> s.view == ReadyForDark || (!Guards(c) && s.view == Outro))
    && (s.lights.Some? ==> s.isDark)
    && match s.lights
       case Some(ReadyOn) => !s.showReady && !s.startFireworks
       case Some(ReadyOff) => s.showReady && !s.startFireworks
       case Some(FireworksOn) => !s.showReady && !s.startFireworks
       case None => !s.showReady && (s.startFireworks <==> s.isDark)
  }

  lemma InitInv(c: Variant)
    ensures AppInv(c, Init())
  {
  }

  lemma {:induction false} StepInv(c: Variant, s: AppState, e: Event)
    requires AppInv(c, s)
    ensures AppInv(c, StepWith(c, s, e))
  {
    match e
    case ShowcaseTick => TickInv(c, s);
    case ShowcaseExited => Showcase.Cleanups(s.cards);
    case _ =>
  }

  lemma TickInv(c: Variant, s: AppState)
    requires AppInv(c, s)
    ensures AppInv(c, StepWith(c, s, ShowcaseTick))
  {
    if s.cards.pending.Some? {
      Showcase.FireStep(s.cards);
    }
  }

  /**
   * In every variant onFinished is called at most once and no event moves
   * the phase back, except the one that calls it: as long as onFinished is
   * unguarded, it can take the cord's phase back to the outro.
   */
  lemma Progress(c: Variant, s: AppState, e: Event)
    requires AppInv(c, s)
    ensures var t := StepWith(c, s, e);
      t.cards.finished >= s.cards.finished && Rank(t.view) + t.cards.finished >= Rank(s.view) + s.cards.finished
    ensures var t := StepWith(c, s, e);
      Rank(t.view) < Rank(s.view) ==>
        !Guards(c) && e == ShowcaseTick && s.view == ReadyForDark && t.view == Outro
        && s.cards.finished == 0 && t.cards.finished == 1
  {
  }

  /**
   * With the guarded onFinished the phases only move forward, and the
   * cord's phase is final.
   */
  lemma Forward(s: AppState, e: Event)
    requires AppInv(Corrected, s)
    ensures Rank(StepWith(Corrected, s, e).view) >= Rank(s.view)
    ensures s.view == ReadyForDark ==> StepWith(Corrected, s, e).view == ReadyForDark
  {
  }

  /**
   * Over any run the invariant holds, the phase goes back at most once and
   * by one place, and never once onFinished was called; with the guard it
   * never goes back and the cord's phase is final.
   */
  lemma {:induction false} RunInv(c: Variant, s: AppState, es: seq<Event>)
    requires AppInv(c, s)
    ensures AppInv(c, Run(c, s, es))
    ensures Rank(Run(c, s, es).view) + Run(c, s, es).cards.finished >= Rank(s.view) + s.cards.finished
    ensures Rank(Run(c, s, es).view) + 1 >= Rank(s.view)
    ensures s.cards.finished == 1 ==> Rank(Run(c, s, es).view) >= Rank(s.view)
    ensures Guards(c) ==> Rank(Run(c, s, es).view) >= Rank(s.view)
    ensures Guards(c) && s.view == ReadyForDark ==> Run(c, s, es).view == ReadyForDark
    decreases |es|
  {
    if es != [] {
      StepInv(c, s, es[0]);
      Progress(c, s, es[0]);
      if Guards(c) {
        Forward(s, es[0]);
      }
      RunInv(c, StepWith(c, s, es[0]), es[1..]);
    }
  }

  // ---------------------------------------------------------------------------
  // What is on screen
  // ---------------------------------------------------------------------------

  predicate SplashShown(s: AppState) { s.view == Splash }
  predicate IntroShown(s: AppState) { s.view == Intro }
  predicate ShowcaseShown(s: AppState) { s.view == ShowcaseView }
  predicate OutroShown(s: AppState) { s.view == Outro }
  /** "READY?" is on screen. */
  predicate ReadyShown(s: AppState) { s.showReady }
  predicate FireworksShown(s: AppState) { s.startFireworks }

  /**
   * "READY?" and the fireworks only appear in the dark, and never together;
   * while the fireworks run, the splash, intro, showcase and cord are gone;
   * with the guarded onFinished the outro is gone too.
   */
  lemma Screens(c: Variant, s: AppState)
    requires AppInv(c, s)
    ensures ReadyShown(s) ==> s.isDark && !FireworksShown(s)
    ensures FireworksShown(s) ==>
      s.isDark && !SplashShown(s) && !IntroShown(s) && !ShowcaseShown(s) && !CordShown(s)
    ensures Guards(c) && FireworksShown(s) ==> !OutroShown(s)
  {
  }

  /**
   * The lights-out sequence after the pull: "READY?" appears after 1.5 s,
   * disappears after 4 s and the fireworks start after 4.5 s.
   */
  lemma LightsOut(c: Variant, s: AppState, y: real)
    requires AppInv(c, s) && CordShown(s) && y > PullThreshold
    ensures var t0 := StepWith(c, s, CordDragEnd(y));
      var t1 := StepWith(c, t0, LightsTick);
      var t2 := StepWith(c, t1, LightsTick);
      var t3 := StepWith(c, t2, LightsTick);
      && t0.isDark && !ReadyShown(t0) && !FireworksShown(t0)
      && LightsDelay(ReadyOn) == 1500.0 && ReadyShown(t1) && !FireworksShown(t1)
      && LightsDelay(ReadyOn) + LightsDelay(ReadyOff) == 4000.0 && !ReadyShown(t2) && !FireworksShown(t2)
      && LightsDelay(ReadyOn) + LightsDelay(ReadyOff) + LightsDelay(FireworksOn) == 4500.0
      && FireworksShown(t3) && t3.lights.None? && StepWith(c, t3, LightsTick) == t3
  {
  }

  // ---------------------------------------------------------------------------
  // Whole runs
  // ---------------------------------------------------------------------------

  function Ticks(n: nat): (es: seq<Event>)
    ensures |es| == n && forall i :: 0 <= i < n ==> es[i] == ShowcaseTick
  {
    seq(n, _ => ShowcaseTick)
  }

  /** While the Showcase is on screen, its first timeouts only reveal cards. */
  lemma {:induction false} RevealCards(c: Variant, s: AppState, k: nat)
    requires s.view == ShowcaseView && s.cards == Showcase.Begin(Showcase.ProductCount)
    requires k <= Showcase.ProductCount
    ensures Run(c, s, Ticks(k)) == s.(cards := Showcase.FireN(s.cards, k))
  {
    if k > 0 {
      RevealCards(c, s, k - 1);
      assert Ticks(k) == Ticks(k - 1) + [ShowcaseTick];
      RunAppend(c, s, Ticks(k - 1), [ShowcaseTick]);
      Showcase.Reveals(Showcase.ProductCount, k - 1);
      Showcase.Reveals(Showcase.ProductCount, k);
      Showcase.FireNSplit(s.cards, k - 1, 1);
    }
  }

  /** The first three events: Continue and the two view timeouts bring the showcase. */
  lemma Opening(c: Variant)
    ensures Run(c, Init(), [Continue, ViewTimer, ViewTimer])
         == Init().(view := ShowcaseView, cards := Showcase.Begin(Showcase.ProductCount))
  {
    var s1 := StepWith(c, Init(), Continue);
    var s2 := StepWith(c, s1, ViewTimer);
    assert [Continue, ViewTimer, ViewTimer] == [Continue] + [ViewTimer] + [ViewTimer];
    RunAppend(c, Init(), [Continue] + [ViewTimer], [ViewTimer]);
    RunAppend(c, Init(), [Continue], [ViewTimer]);
  }

  /** A run through known states: each event takes one state to the next. */
  lemma {:induction false} Chain(c: Variant, ss: seq<AppState>, es: seq<Event>)
    requires |ss| == |es| + 1
    requires forall k :: 0 <= k < |es| ==> StepWith(c, ss[k], es[k]) == ss[k + 1]
    ensures Run(c, ss[0], es) == ss[|es|]
    decreases |es|
  {
    if es != [] {
      Chain(c, ss[1..], es[1..]);
    }
  }

  /** The Showcase's sequencer once every card is out, with the grid pause pending. */
  function AllOut(mounted: bool): Showcase.Reveal
  {
    Showcase.Reveal(Showcase.ProductCount, Showcase.ProductCount, false, false, 0, Some(Showcase.GridTick), mounted)
  }

  /** The opening, then one Showcase timeout per card. */
  function CardEvents(): seq<Event>
  {
    [Continue, ViewTimer, ViewTimer] + Ticks(Showcase.ProductCount)
  }

  /** The showcase view once every card is out, with the grid pause pending. */
  function AllCardsShown(): AppState
  {
    Init().(view := ShowcaseView, cards := AllOut(true))
  }

  /** The opening and one timeout per card show every card, in the showcase view. */
  lemma AllCardsOut(c: Variant)
    ensures Run(c, Init(), CardEvents()) == AllCardsShown()
  {
    var s := Init().(view := ShowcaseView, cards := Showcase.Begin(Showcase.ProductCount));
    Opening(c);
    RunAppend(c, Init(), [Continue, ViewTimer, ViewTimer], Ticks(Showcase.ProductCount));
    RevealCards(c, s, Showcase.ProductCount);
    Showcase.Sequence(Showcase.ProductCount);
  }

  /** The showcase view with the grid shown, the exit started and onFinished's timeout pending. */
  function NearFinish(): AppState
  {
    var n := Showcase.ProductCount;
    Init().(view := ShowcaseView, cards := Showcase.Reveal(n, n, true, true, 0, Some(Showcase.FinishTick), true))
  }

  /** The grid pause and the grid hold. */
  lemma GridAndExit(c: Variant)
    ensures Run(c, AllCardsShown(), [ShowcaseTick, ShowcaseTick]) == NearFinish()
  {
    var n := Showcase.ProductCount;
    var s1 := AllCardsShown().(cards := Showcase.Reveal(n, n, true, false, 0, Some(Showcase.ExitTick), true));
    assert StepWith(c, AllCardsShown(), ShowcaseTick) == s1;
    assert StepWith(c, s1, ShowcaseTick) == NearFinish();
    Chain(c, [AllCardsShown(), s1, NearFinish()], [ShowcaseTick, ShowcaseTick]);
  }

  /** After every card, the grid pause and the grid hold bring the exit of the cards. */
  lemma ReachesNearFinish(c: Variant)
    ensures Run(c, Init(), CardEvents() + [ShowcaseTick, ShowcaseTick]) == NearFinish()
  {
    AllCardsOut(c);
    GridAndExit(c);
    RunAppend(c, Init(), CardEvents(), [ShowcaseTick, ShowcaseTick]);
  }

  /** The state in which the outro starts after the whole showcase, the Showcase still fading out. */
  function FinaleStart(): AppState
  {
    var n := Showcase.ProductCount;
    Init().(view := Outro, cards := Showcase.Reveal(n, n, true, true, 1, None, true))
  }

  /** The intended show, first half: after every card, the three end timeouts bring the outro. */
  lemma ShowReachesOutro(c: Variant)
    ensures Run(c, Init(), CardEvents() + [ShowcaseTick, ShowcaseTick, ShowcaseTick]) == FinaleStart()
    ensures OutroShown(FinaleStart()) && FinaleStart().cards.finished == 1 && !FinaleStart().isDark
    ensures Exiting(FinaleStart()) && FinaleStart().cards.pending.None?
  {
    ReachesNearFinish(c);
    assert CardEvents() + [ShowcaseTick, ShowcaseTick, ShowcaseTick]
        == (CardEvents() + [ShowcaseTick, ShowcaseTick]) + [ShowcaseTick];
    RunAppend(c, Init(), CardEvents() + [ShowcaseTick, ShowcaseTick], [ShowcaseTick]);
    assert StepWith(c, NearFinish(), ShowcaseTick) == FinaleStart();
    Chain(c, [NearFinish(), FinaleStart()], [ShowcaseTick]);
  }

  /**
   * The intended show, second half: the Showcase's fade ends; the outro's
   * completion brings the cord; a pull and the three lights timeouts start
   * the fireworks, with nothing else on screen.
   */
  lemma FinaleEndsInFireworks(c: Variant, y: real)
    requires y > PullThreshold
    ensures var t := Run(c, FinaleStart(), [ShowcaseExited, OutroComplete, CordDragEnd(y),
                                            LightsTick, LightsTick, LightsTick]);
      t.view == ReadyForDark && t.isDark && FireworksShown(t) && !ReadyShown(t) && !CordShown(t) && !OutroShown(t)
      && t.lights.None? && !t.cards.mounted && t.cards.pending.None?
  {
    var s1 := FinaleStart().(cards := FinaleStart().cards.(mounted := false));
    var s2 := s1.(view := ReadyForDark);
    var s3 := s2.(isDark := true, cordPulled := true, lights := Some(ReadyOn));
    var s4 := s3.(showReady := true, lights := Some(ReadyOff));
    var s5 := s4.(showReady := false, lights := Some(FireworksOn));
    var s6 := s5.(startFireworks := true, lights := None);
    assert StepWith(c, FinaleStart(), ShowcaseExited) == s1;
    Chain(c, [FinaleStart(), s1, s2, s3, s4, s5, s6],
          [ShowcaseExited, OutroComplete, CordDragEnd(y), LightsTick, LightsTick, LightsTick]);
  }

  /** After the last card: skip, the fade ends, a pull, the lights timeouts, then three Showcase timeouts. */
  function LateEvents(y: real): seq<Event>
  {
    [KeyDown("s"), ShowcaseExited, CordDragEnd(y), LightsTick, LightsTick, LightsTick,
     ShowcaseTick, ShowcaseTick, ShowcaseTick]
  }

  /** The skip, the end of the fade, the pull and the lights timeouts, from every card shown. */
  function LateStates(c: Variant, y: real): (ss: seq<AppState>)
    ensures |ss| == 7
  {
    var n := Showcase.ProductCount;
    var s0 := AllCardsShown();
    var s1 := s0.(view := ReadyForDark);
    var s2 := s1.(cards := Unmount(c, AllOut(true)));
    var s3 := s2.(isDark := true, cordPulled := true, lights := Some(ReadyOn));
    var s4 := s3.(showReady := true, lights := Some(ReadyOff));
    var s5 := s4.(showReady := false, lights := Some(FireworksOn));
    var s6 := s5.(startFireworks := true, lights := None);
    [s0, s1, s2, s3, s4, s5, s6]
  }

  /** The first six late events, in any variant: the fireworks start, the Showcase is unmounted. */
  lemma LateLightsOut(c: Variant, y: real)
    requires y > PullThreshold
    ensures Run(c, AllCardsShown(), LateEvents(y)[..6]) == LateStates(c, y)[6]
  {
    var ss := LateStates(c, y);
    assert IsSkipKey("s");
    assert StepWith(c, ss[0], KeyDown("s")) == ss[1];
    assert StepWith(c, ss[1], ShowcaseExited) == ss[2];
    assert StepWith(c, ss[2], CordDragEnd(y)) == ss[3];
    assert StepWith(c, ss[3], LightsTick) == ss[4];
    assert StepWith(c, ss[4], LightsTick) == ss[5];
    assert StepWith(c, ss[5], LightsTick) == ss[6];
    assert LateEvents(y)[..6] == [KeyDown("s"), ShowcaseExited, CordDragEnd(y), LightsTick, LightsTick, LightsTick];
    Chain(c, ss, LateEvents(y)[..6]);
  }

  /** The three Showcase timeouts after the lights-out sequence, as written and corrected. */
  lemma LateTicks(c: Variant, y: real)
    ensures var t := Run(c, LateStates(c, y)[6], LateEvents(y)[6..]);
      var n := Showcase.ProductCount;
      && (c == AsWritten ==> t == LateStates(c, y)[6].(view := Outro, cards := Showcase.Reveal(n, n, true, true, 1, None, false)))
      && (Cleans(c) ==> t == LateStates(c, y)[6])
  {
    var n := Showcase.ProductCount;
    var s6 := LateStates(c, y)[6];
    assert LateEvents(y)[6..] == [ShowcaseTick, ShowcaseTick, ShowcaseTick];
    if c == AsWritten {
      var s7 := s6.(cards := Showcase.Reveal(n, n, true, false, 0, Some(Showcase.ExitTick), false));
      var s8 := s6.(cards := Showcase.Reveal(n, n, true, true, 0, Some(Showcase.FinishTick), false));
      var s9 := s6.(view := Outro, cards := Showcase.Reveal(n, n, true, true, 1, None, false));
      assert StepWith(c, s6, ShowcaseTick) == s7;
      assert StepWith(c, s7, ShowcaseTick) == s8;
      assert StepWith(c, s8, ShowcaseTick) == s9;
      Chain(c, [s6, s7, s8, s9], LateEvents(y)[6..]);
    } else {
      Chain(c, [s6, s6, s6, s6], LateEvents(y)[6..]);
    }
  }

  /** The whole late run: every card, then the late events. */
  lemma LateRun(c: Variant, y: real)
    requires y > PullThreshold
    ensures Run(c, Init(), CardEvents() + LateEvents(y)) == Run(c, LateStates(c, y)[6], LateEvents(y)[6..])
  {
    AllCardsOut(c);
    LateLightsOut(c, y);
    assert LateEvents(y) == LateEvents(y)[..6] + LateEvents(y)[6..];
    RunAppend(c, AllCardsShown(), LateEvents(y)[..6], LateEvents(y)[6..]);
    RunAppend(c, Init(), CardEvents(), LateEvents(y));
  }

  /**
   * As written: pressing S in the eight seconds after the last card leaves
   * the Showcase's end timeouts running past its unmounting. If the cord is
   * pulled and the fireworks start before they fire, onFinished still sets
   * the outro: the outro is mounted over the fireworks, and the cord's phase
   * is left.
   */
  lemma LateFinishAsWritten(y: real)
    requires y > PullThreshold
    ensures var t := Run(AsWritten, Init(), CardEvents() + LateEvents(y));
      t.view == Outro && OutroShown(t) && FireworksShown(t) && t.isDark && t.cards.finished == 1
      && !t.cards.mounted
  {
    LateRun(AsWritten, y);
    LateTicks(AsWritten, y);
  }

  /**
   * When unmounting cancels the whole sequence, the same events leave the
   * app at the cord's phase with the fireworks running and onFinished never
   * called.
   */
  lemma LateFinishCorrected(c: Variant, y: real)
    requires Cleans(c) && y > PullThreshold
    ensures var t := Run(c, Init(), CardEvents() + LateEvents(y));
      t.view == ReadyForDark && !OutroShown(t) && FireworksShown(t) && t.cards.finished == 0 && AppInv(c, t)
  {
    LateRun(c, y);
    LateTicks(c, y);
  }

  /** The skip key, then onFinished's timeout, then the end of the fade. */
  lemma SkipBeforeFinish(c: Variant)
    ensures var t := Run(c, NearFinish(), [KeyDown("s"), ShowcaseTick, ShowcaseExited]);
      && t.cards.finished == 1 && !t.cards.mounted && !t.isDark
      && t.view == (if Guards(c) then ReadyForDark else Outro)
  {
    var n := Showcase.ProductCount;
    var s1 := NearFinish().(view := ReadyForDark);
    var s2 := s1.(view := if Guards(c) then ReadyForDark else Outro,
                  cards := Showcase.Reveal(n, n, true, true, 1, None, true));
    var s3 := s2.(cards := s2.cards.(mounted := false));
    assert IsSkipKey("s");
    assert StepWith(c, NearFinish(), KeyDown("s")) == s1;
    assert StepWith(c, s1, ShowcaseTick) == s2;
    assert StepWith(c, s2, ShowcaseExited) == s3;
    Chain(c, [NearFinish(), s1, s2, s3], [KeyDown("s"), ShowcaseTick, ShowcaseExited]);
  }

  /**
   * Pressing S while onFinished's timeout is pending, less than a second
   * before it fires: the Showcase is still fading out, so its timeout fires
   * whatever the cleanup. Unguarded, onFinished then sets the outro over the
   * cord's phase; with the guard the cord's phase stays.
   */
  lemma FinishDuringExit(c: Variant)
    ensures var t := Run(c, Init(), CardEvents() + [ShowcaseTick, ShowcaseTick, KeyDown("s"), ShowcaseTick, ShowcaseExited]);
      && t.cards.finished == 1 && !t.cards.mounted && !t.isDark
      && (t.view == ReadyForDark <==> Guards(c))
      && (!Guards(c) ==> t.view == Outro)
  {
    var late := [KeyDown("s"), ShowcaseTick, ShowcaseExited];
    ReachesNearFinish(c);
    SkipBeforeFinish(c);
    assert CardEvents() + [ShowcaseTick, ShowcaseTick, KeyDown("s"), ShowcaseTick, ShowcaseExited]
        == (CardEvents() + [ShowcaseTick, ShowcaseTick]) + late;
    RunAppend(c, Init(), CardEvents() + [ShowcaseTick, ShowcaseTick], late);
  }

  // ---------------------------------------------------------------------------
  // The component
  // ---------------------------------------------------------------------------

  /** The App component as written: its state hooks and the pending timeouts. */
  class AppRoot {
    var viewState: View
    var isDark: bool
    var showReady: bool
    var startFireworks: bool
    var hasPulled: bool
    var lights: Option<LightsTimer>
    var cards: Showcase.Reveal

    function State(): AppState
      reads this
    {
      AppState(viewState, isDark, showReady, startFireworks, hasPulled, lights, cards)
    }

    constructor ()
      ensures State() == Init() && AppInv(AsWritten, State())
    {
      viewState, isDark, showReady, startFireworks, hasPulled := Splash, false, false, false, false;
      lights, cards := None, Idle;
    }

    /** setViewState, mounting the Showcase on entering its view. */
    method SetViewState(v: View)
      modifies this`viewState, this`cards
      ensures State() == SetView(old(State()), v)
    {
      if viewState != ShowcaseView && v == ShowcaseView {
        cards := Showcase.Begin(Showcase.ProductCount);
      }
      viewState := v;
    }

    /** The splash screen's Continue button. */
    method OnContinue()
      requires AppInv(AsWritten, State())
      modifies this
      ensures State() == Step(old(State()), Continue) && AppInv(AsWritten, State())
    {
      StepInv(AsWritten, State(), Continue);
      if viewState == Splash {
        SetViewState(Transitioning);
      }
    }

    /** The view timeout of the transitioning or intro phase fires. */
    method OnViewTimer()
      requires AppInv(AsWritten, State())
      modifies this
      ensures State() == Step(old(State()), ViewTimer) && AppInv(AsWritten, State())
    {
      StepInv(AsWritten, State(), ViewTimer);
      if viewState == Transitioning {
        SetViewState(Intro);
      } else if viewState == Intro {
        SetViewState(ShowcaseView);
      }
    }

    /** The keydown listener. */
    method OnKeyDown(key: string)
      requires AppInv(AsWritten, State())
      modifies this
      ensures State() == Step(old(State()), KeyDown(key)) && AppInv(AsWritten, State())
    {
      StepInv(AsWritten, State(), KeyDown(key));
      if ToLower(key) == "s" && viewState != ReadyForDark && !isDark {
        SetViewState(ReadyForDark);
      }
    }

    /** A Showcase timeout fires; the last one calls onFinished, which sets the outro unguarded. */
    method OnShowcaseTick()
      requires AppInv(AsWritten, State())
      modifies this
      ensures State() == Step(old(State()), ShowcaseTick) && AppInv(AsWritten, State())
    {
      StepInv(AsWritten, State(), ShowcaseTick);
      if cards.pending.Some? {
        var before := cards.finished;
        cards := Showcase.Fire(cards);
        if cards.finished > before {
          SetViewState(Outro);
        }
      }
    }

    /** The Showcase's exit fade ends: it unmounts and its cleanup runs. */
    method OnShowcaseExited()
      requires AppInv(AsWritten, State())
      modifies this
      ensures State() == Step(old(State()), ShowcaseExited) && AppInv(AsWritten, State())
    {
      StepInv(AsWritten, State(), ShowcaseExited);
      if cards.mounted && viewState != ShowcaseView {
        cards := Showcase.UnmountedAsWritten(cards);
      }
    }

    /** The outro's onSequenceComplete. */
    method OnOutroComplete()
      requires AppInv(AsWritten, State())
      modifies this
      ensures State() == Step(old(State()), OutroComplete) && AppInv(AsWritten, State())
    {
      StepInv(AsWritten, State(), OutroComplete);
      if viewState == Outro {
        SetViewState(ReadyForDark);
      }
    }

    /** The cord's drag end handler, and handleLightsOut when it counts as a pull. */
    method OnCordDragEnd(offsetY: real)
      requires AppInv(AsWritten, State())
      modifies this
      ensures State() == Step(old(State()), CordDragEnd(offsetY)) && AppInv(AsWritten, State())
    {
      StepInv(AsWritten, State(), CordDragEnd(offsetY));
      if viewState == ReadyForDark && !isDark && offsetY > PullThreshold && !hasPulled {
        hasPulled := true;
        isDark := true;
        lights := Some(ReadyOn);
      }
    }

    /** The pending lights timeout fires. */
    method OnLightsTick()
      requires AppInv(AsWritten, State())
      modifies this
      ensures State() == Step(old(State()), LightsTick) && AppInv(AsWritten, State())
    {
      StepInv(AsWritten, State(), LightsTick);
      match lights
      case None =>
      case Some(ReadyOn) =>
        showReady := true;
        lights := Some(ReadyOff);
      case Some(ReadyOff) =>
        showReady := false;
        lights := Some(FireworksOn);
      case Some(FireworksOn) =>
        startFireworks := true;
        lights := None;
    }
  }
}
