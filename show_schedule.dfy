/**
 * The show script of the fireworks engine: the frame tests at the start of
 * each animate() call in components/FireworksDisplay.tsx, written as a table
 * from frame number to the rockets launched on that frame, in push order.
 */
module ShowSchedule {
  import opened Wrappers

  /** The two shell types of the engine. */
  datatype Shell = Peony | Text

  datatype Colour = Colour(hue: real, sat: real, light: real)

  const Gold: Colour := Colour(45.0, 100.0, 50.0)
  const White: Colour := Colour(0.0, 0.0, 100.0)

  /**
   * One rocket launch: horizontal position and target height as fractions
   * of the canvas size, colour, shell and the character of a text shell.
   */
  datatype Launch = Launch(xFrac: real, targetFrac: real, colour: Colour, shell: Shell, textChar: Option<string>)

  /** The year spelled by the finale, one character per text rocket. */
  const Year: string := "2026"

  const OpenerFrame: nat := 20
  const PairFrame: nat := 140
  const TrioFrame: nat := 270
  const FinaleFrame: nat := 450

  /** The launches of one frame; the four frame tests are independent, as in the source. */
  function Schedule(frame: nat): (r: seq<Launch>)
    ensures frame == OpenerFrame ==> |r| == 1
    ensures frame == PairFrame ==> |r| == 2
    ensures frame == TrioFrame ==> |r| == 3
    ensures frame == FinaleFrame ==> |r| == 4
    ensures frame !in {OpenerFrame, PairFrame, TrioFrame, FinaleFrame} ==> r == []
  {
    (if frame == OpenerFrame then
       [Launch(0.5, 0.35, Gold, Peony, None)]
     else [])
    + (if frame == PairFrame then
       [Launch(0.3, 0.45, White, Peony, None),
        Launch(0.7, 0.45, White, Peony, None)]
     else [])
    + (if frame == TrioFrame then
       [Launch(0.2, 0.3, Gold, Peony, None),
        Launch(0.5, 0.25, Gold, Peony, None),
        Launch(0.8, 0.3, Gold, Peony, None)]
     else [])
    + (if frame == FinaleFrame then
       [Launch(0.2, 0.4, Colour(0.0, 80.0, 60.0), Text, Some("2")),
        Launch(0.4, 0.4, Colour(45.0, 100.0, 50.0), Text, Some("0")),
        Launch(0.6, 0.4, Colour(120.0, 60.0, 50.0), Text, Some("2")),
        Launch(0.8, 0.4, Colour(210.0, 90.0, 60.0), Text, Some("6"))]
     else [])
  }

  /** Number of peony launches in a list of launches. */
  function Peonies(ls: seq<Launch>): (n: nat)
    ensures n <= |ls|
  {
    if ls == [] then 0 else (if ls[0].shell == Peony then 1 else 0) + Peonies(ls[1..])
  }

  /** Rockets launched on frames 0 .. n - 1. */
  function LaunchedBefore(n: nat): nat
  {
    if n == 0 then 0 else LaunchedBefore(n - 1) + |Schedule(n - 1)|
  }

  /** Peonies launched on frames 0 .. n - 1. */
  function PeoniesBefore(n: nat): nat
  {
    if n == 0 then 0 else PeoniesBefore(n - 1) + Peonies(Schedule(n - 1))
  }

  /**
   * Launches accumulated up to frame n: 1 after the opener, 3 after the
   * white pair, 6 after the gold trio and 10 after the finale; all of them
   * peonies except the four finale rockets.
   */
  lemma {:induction false} LaunchTotals(n: nat)
    ensures LaunchedBefore(n) ==
      if n <= OpenerFrame then 0 else if n <= PairFrame then 1
      else if n <= TrioFrame then 3 else if n <= FinaleFrame then 6 else 10
    ensures PeoniesBefore(n) == if n <= OpenerFrame then 0 else if n <= PairFrame then 1
      else if n <= TrioFrame then 3 else 6
  {
    if n > 0 {
      LaunchTotals(n - 1);
      FrameCounts(n - 1);
    }
  }

  /** Rockets and peonies launched on one frame. */
  lemma FrameCounts(f: nat)
    ensures |Schedule(f)| ==
      if f == OpenerFrame then 1 else if f == PairFrame then 2
      else if f == TrioFrame then 3 else if f == FinaleFrame then 4 else 0
    ensures Peonies(Schedule(f)) ==
      if f == OpenerFrame then 1 else if f == PairFrame then 2
      else if f == TrioFrame then 3 else 0
  {
    var s := Schedule(f);
    if f == PairFrame {
      assert Peonies(s[1..]) == 1;
    } else if f == TrioFrame {
      assert Peonies(s[2..]) == 1 && Peonies(s[1..]) == 2;
    } else if f == FinaleFrame {
      assert Peonies(s[3..]) == 0 && Peonies(s[2..]) == 0 && Peonies(s[1..]) == 0;
    }
  }

  /** The whole show launches ten rockets, six of them peonies. */
  lemma ShowTotals(n: nat)
    requires n > FinaleFrame
    ensures LaunchedBefore(n) == 10 && PeoniesBefore(n) == 6
  {
    LaunchTotals(n);
  }

  /**
   * The finale: four text rockets spelling the year, at 0.2, 0.4, 0.6 and
   * 0.8 of the canvas width.
   */
  lemma FinaleSpellsYear()
    ensures |Schedule(FinaleFrame)| == |Year| == 4
    ensures forall k :: 0 <= k < 4 ==>
      Schedule(FinaleFrame)[k].shell == Text &&
      Schedule(FinaleFrame)[k].textChar == Some([Year[k]]) &&
      Schedule(FinaleFrame)[k].xFrac == (k + 1) as real / 5.0
  {
  }
}
