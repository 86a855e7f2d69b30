/**
 * The product showcase of components/Showcase.tsx: the card-reveal
 * sequencer (scheduleNextCard and its timers) and the per-card layout
 * arithmetic of FlyingCard (start colour, 5 x 5 grid cell, exit offset,
 * which target state is active, the two-digit label).
 */
module Showcase {
  import opened Wrappers

  /** One entry of the product list. */
  datatype Product = Product(title: string, desc: string)

  /** Number of entries of the product list the app passes in (data/products.ts). */
  const ProductCount: nat := 26

  // ---------------------------------------------------------------------------
  // Grid layout
  // ---------------------------------------------------------------------------

  const GridSide: nat := 5
  /** Only the first 25 cards get a grid cell; the 26th fades out instead. */
  const GridCards: nat := 25
  /** Horizontal spacing of the grid, in vw. */
  const ColumnSpacing: int := 19
  /** Vertical spacing of the grid, in vh. */
  const RowSpacing: int := 17

  /** Offset of a grid cell from the centre of the screen (x in vw, y in vh). */
  datatype Cell = Cell(x: int, y: int)

  /**
   * The grid position of card `index`: column index mod 5 and row index div 5
   * of a 5 x 5 grid centred on the screen; no cell from index 25 on.
   */
  function GridCell(index: nat): (r: Option<Cell>)
    ensures r.Some? <==> index < GridCards
    ensures r.Some? ==> r.value.x in {-38, -19, 0, 19, 38} && r.value.y in {-34, -17, 0, 17, 34}
  {
    if index >= GridCards then None
    else
      var col := index % GridSide;
      var row := index / GridSide;
      Some(Cell((col - 2) * ColumnSpacing, (row - 2) * RowSpacing))
  }

  /** Reading a cell back as a card index: row-major position in the grid. */
  function CellIndex(c: Cell): int
  {
    (c.y / RowSpacing + 2) * GridSide + (c.x / ColumnSpacing + 2)
  }

  /** Every gridded card can be recovered from its cell. */
  lemma GridCellInverse(index: nat)
    requires index < GridCards
    ensures GridCell(index).Some? && CellIndex(GridCell(index).value) == index
  {
    var col, row := index % GridSide, index / GridSide;
    assert ((col - 2) * ColumnSpacing) / ColumnSpacing == col - 2;
    assert ((row - 2) * RowSpacing) / RowSpacing == row - 2;
  }

  /** No two of the first 25 cards share a cell. */
  lemma GridCellInjective(i: nat, j: nat)
    requires GridCell(i).Some? && GridCell(i) == GridCell(j)
    ensures i == j
  {
    GridCellInverse(i);
    GridCellInverse(j);
  }

  /** Every cell of the 5 x 5 grid is taken, by card row * 5 + col. */
  lemma GridCellCovers(col: nat, row: nat)
    requires col < GridSide && row < GridSide
    ensures GridCell(row * GridSide + col) == Some(Cell((col - 2) * ColumnSpacing, (row - 2) * RowSpacing))
  {
    var i := row * GridSide + col;
    assert i % GridSide == col && i / GridSide == row;
  }

  // ---------------------------------------------------------------------------
  // Start configuration and colour
  // ---------------------------------------------------------------------------

  const FirstColour: string := "from-slate-50 to-white"
  const Palette: seq<string> := [
    "from-blue-50/40 to-white",
    "from-purple-50/40 to-white",
    "from-emerald-50/40 to-white",
    "from-orange-50/40 to-white",
    "from-rose-50/40 to-white"
  ]
  /** Distance from the centre at which every later card starts its flight. */
  const FlightDistance: real := 1200.0
  /** Spread of the start rotation, in degrees. */
  const FlightSpin: real := 45.0

  /** Gradient class of card `index`. */
  function CardColour(index: nat): string
  {
    if index == 0 then FirstColour else Palette[index % |Palette|]
  }

  /** The colours of cards 1, 2, ... repeat every five cards, never the first card's colour. */
  lemma ColourCycle(index: nat)
    requires index > 0
    ensures CardColour(index + |Palette|) == CardColour(index)
    ensures CardColour(index) in Palette && CardColour(index) != FirstColour
    ensures CardColour(index + 1) != CardColour(index)
  {
    assert (index + 1) % 5 == if index % 5 == 4 then 0 else index % 5 + 1;
  }

  /** Where a card starts its flight: offset, rotation and colour. */
  datatype Start = Start(x: real, y: real, rotate: real, colour: string)

  /**
   * The start configuration of card `index`. For a later card `dir` is the
   * unit vector (cos, sin) of the random angle and `u` the Math.random()
   * draw behind the rotation.
   */
  function InitialConfig(index: nat, dir: (real, real), u: real): (s: Start)
    requires dir.0 * dir.0 + dir.1 * dir.1 == 1.0 && 0.0 <= u < 1.0
    ensures s.colour == CardColour(index)
    ensures index == 0 ==> s == Start(0.0, 0.0, 0.0, FirstColour)
    ensures index > 0 ==> s.x * s.x + s.y * s.y == FlightDistance * FlightDistance
    ensures index > 0 ==> -FlightSpin / 2.0 <= s.rotate < FlightSpin / 2.0
  {
    if index == 0 then Start(0.0, 0.0, 0.0, FirstColour)
    else
      var x, y := dir.0 * FlightDistance, dir.1 * FlightDistance;
      assert x * x + y * y == (dir.0 * dir.0 + dir.1 * dir.1) * (FlightDistance * FlightDistance);
      Start(x, y, (u - 0.5) * FlightSpin, Palette[index % |Palette|])
  }

  // ---------------------------------------------------------------------------
  // Target states
  // ---------------------------------------------------------------------------

  /** Horizontal exit offset: the grid offset doubled, 0 for a card without a cell. */
  function ExitX(index: nat): int
  {
    match GridCell(index)
    case Some(c) => c.x * 2
    case None => 0
  }

  /** The exit pushes every gridded card outwards from the centre, twice as far. */
  lemma ExitSpreads(index: nat)
    ensures GridCell(index).Some? ==> ExitX(index) == 2 * GridCell(index).value.x
    ensures GridCell(index).Some? ==>
      ExitX(index) * GridCell(index).value.x >= GridCell(index).value.x * GridCell(index).value.x
    ensures GridCell(index).None? <==> index >= GridCards
    ensures index >= GridCards ==> ExitX(index) == 0
    ensures -76 <= ExitX(index) <= 76
  {
  }

  /**
   * The animation target of a card: stacked at depth z, in a grid cell,
   * faded out (the card with no cell in grid mode), or leaving with the
   * given horizontal offset.
   */
  datatype Target = Stack(z: nat) | GridSlot(cell: Cell) | FadeOut | Exit(x: int)

  /** The target passed to the card's animation, from the two phase flags. */
  function CurrentTarget(index: nat, isGrid: bool, isExiting: bool): Target
  {
    if isExiting then Exit(ExitX(index))
    else if isGrid then
      match GridCell(index)
      case Some(c) => GridSlot(c)
      case None => FadeOut
    else Stack(index)
  }

  /** The exit state wins over the grid state, which wins over the stack state. */
  lemma TargetPrecedence(index: nat, isGrid: bool, isExiting: bool)
    ensures CurrentTarget(index, isGrid, isExiting).Exit? <==> isExiting
    ensures CurrentTarget(index, isGrid, isExiting).Stack? <==> !isGrid && !isExiting
    ensures CurrentTarget(index, isGrid, isExiting).GridSlot? <==> isGrid && !isExiting && index < GridCards
    ensures CurrentTarget(index, isGrid, isExiting).FadeOut? <==> isGrid && !isExiting && index >= GridCards
    ensures isExiting ==> CurrentTarget(index, isGrid, isExiting) == Exit(ExitX(index))
    ensures !isGrid && !isExiting ==> CurrentTarget(index, isGrid, isExiting) == Stack(index)
  {
  }

  // ---------------------------------------------------------------------------
  // Label
  // ---------------------------------------------------------------------------

  function DigitChar(d: nat): char
    requires d < 10
  {
    "0123456789"[d]
  }

  predicate IsDigit(c: char)
  {
    '0' <= c <= '9'
  }

  predicate AllDigits(s: string)
  {
    forall i :: 0 <= i < |s| ==> IsDigit(s[i])
  }

  /** String(n) for a natural number: its decimal digits, no leading zero. */
  function Decimal(n: nat): (s: string)
    ensures |s| >= 1 && AllDigits(s)
  {
    if n < 10 then [DigitChar(n)] else Decimal(n / 10) + [DigitChar(n % 10)]
  }

  /** The value of a digit string read in base 10; leading zeros add nothing. */
  function DecimalValue(s: string): nat
    requires AllDigits(s)
  {
    if s == [] then 0 else DecimalValue(s[..|s| - 1]) * 10 + ((s[|s| - 1] as int) - ('0' as int))
  }

  /** padStart: prefix `fill` until the string is `len` long. */
  function PadStart(s: string, len: nat, fill: char): (r: string)
    ensures |r| == if |s| >= len then |s| else len
    ensures r[|r| - |s|..] == s
    ensures forall i :: 0 <= i < |r| - |s| ==> r[i] == fill
  {
    if |s| >= len then s else seq(len - |s|, _ => fill) + s
  }

  /** The label in the corner of card `index`: index + 1, padded to two digits with '0'. */
  function Label(index: nat): string
  {
    PadStart(Decimal(index + 1), 2, '0')
  }

  /** Reading the decimal digits of n back gives n; only 0 starts with '0'. */
  lemma {:induction false} DecimalRoundTrip(n: nat)
    ensures DecimalValue(Decimal(n)) == n
    ensures Decimal(n)[0] == '0' <==> n == 0
    ensures |Decimal(n)| == 1 <==> n < 10
  {
    if n >= 10 {
      DecimalRoundTrip(n / 10);
      var s := Decimal(n);
      assert s[..|s| - 1] == Decimal(n / 10);
      assert s[0] == Decimal(n / 10)[0];
    }
  }

  /** Zeros in front of a digit string do not change its value. */
  lemma {:induction false} LeadingZeros(z: string, s: string)
    requires AllDigits(s) && forall i :: 0 <= i < |z| ==> z[i] == '0'
    ensures AllDigits(z + s) && DecimalValue(z + s) == DecimalValue(s)
  {
    if s == [] {
      assert z + s == z;
      ZerosValue(z);
    } else {
      var t := s[..|s| - 1];
      assert (z + s)[..|z + s| - 1] == z + t;
      LeadingZeros(z, t);
    }
  }

  lemma {:induction false} ZerosValue(z: string)
    requires forall i :: 0 <= i < |z| ==> z[i] == '0'
    ensures AllDigits(z) && DecimalValue(z) == 0
  {
    if z != [] {
      ZerosValue(z[..|z| - 1]);
    }
  }

  /**
   * The label is a digit string of length at least two whose value is the
   * card's position, index + 1; it is exactly two digits up to card 99.
   */
  lemma LabelValue(index: nat)
    ensures AllDigits(Label(index)) && DecimalValue(Label(index)) == index + 1
    ensures |Label(index)| >= 2 && (index < 99 <==> |Label(index)| == 2)
    ensures index < 9 ==> Label(index) == ['0', DigitChar(index + 1)]
  {
    var d := Decimal(index + 1);
    DecimalRoundTrip(index + 1);
    var l := Label(index);
    var z := l[..|l| - |d|];
    assert l == z + d;
    LeadingZeros(z, d);
    if index >= 99 {
      assert |Decimal((index + 1) / 10)| >= 1;
    }
  }

  /** The first card reads "01", the last of the 26 reads "26". */
  lemma FirstAndLastLabel()
    ensures Label(0) == "01" && Label(ProductCount - 1) == "26"
  {
    assert Decimal(26) == Decimal(2) + [DigitChar(6)];
  }

  // ---------------------------------------------------------------------------
  // Reveal timing
  // ---------------------------------------------------------------------------

  const MaxDelay: real := 1500.0
  const MinDelay: real := 250.0
  const DelayFactor: real := 0.9
  /** Pause between the last card and the grid. */
  const GridPause: real := 2000.0
  /** How long the grid is held before the exit. */
  const GridHold: real := 4000.0
  /** Time given to the exit animation before the app is told. */
  const ExitTime: real := 2000.0

  function Pow(b: real, n: nat): real
  {
    if n == 0 then 1.0 else b * Pow(b, n - 1)
  }

  lemma {:induction false} PowFactor(n: nat)
    ensures 0.0 < Pow(DelayFactor, n) <= 1.0
    ensures Pow(DelayFactor, n + 1) <= Pow(DelayFactor, n)
  {
    if n > 0 {
      PowFactor(n - 1);
    }
  }

  /** Delay before card n + 1 appears, in ms: 1500 * 0.9^n, but at least 250. */
  function CardDelay(n: nat): real
  {
    var d := MaxDelay * Pow(DelayFactor, n);
    if d < MinDelay then MinDelay else d
  }

  /** Every card delay lies in [250, 1500]; the first is 1500; they never grow. */
  lemma DelayBounds(n: nat)
    ensures MinDelay <= CardDelay(n) <= MaxDelay
    ensures CardDelay(n + 1) <= CardDelay(n)
    ensures CardDelay(0) == MaxDelay
  {
    PowFactor(n);
  }

  /** 1500 * 0.9^17 is just above 250, 1500 * 0.9^18 below it. */
  lemma FloorPower()
    ensures MaxDelay * Pow(DelayFactor, 17) > MinDelay
    ensures MaxDelay * Pow(DelayFactor, 18) < MinDelay
  {
    var p9 := Pow(DelayFactor, 9);
    assert p9 == 0.387420489;
    assert Pow(DelayFactor, 17) == p9 * Pow(DelayFactor, 8) by { PowAdd(DelayFactor, 9, 8); }
    assert Pow(DelayFactor, 18) == p9 * p9 by { PowAdd(DelayFactor, 9, 9); }
  }

  lemma {:induction false} PowAdd(b: real, m: nat, n: nat)
    ensures Pow(b, m + n) == Pow(b, m) * Pow(b, n)
  {
    if n > 0 {
      PowAdd(b, m, n - 1);
      assert Pow(b, m + n) == b * Pow(b, m + n - 1);
    }
  }

  /** The 250 ms floor is reached exactly from n = 18 on. */
  lemma {:induction false} DelayFloor(n: nat)
    ensures CardDelay(n) == MinDelay <==> n >= 18
  {
    FloorPower();
    if n >= 18 {
      PowBelow(18, n);
    } else {
      PowBelow(n, 17);
    }
  }

  lemma {:induction false} PowBelow(m: nat, n: nat)
    requires m <= n
    ensures Pow(DelayFactor, n) <= Pow(DelayFactor, m)
    decreases n - m
  {
    if m < n {
      PowFactor(n - 1);
      PowBelow(m, n - 1);
    }
  }

  /** Time from mounting until card n is on screen: the first n card delays. */
  function RevealTime(n: nat): real
  {
    if n == 0 then 0.0 else RevealTime(n - 1) + CardDelay(n - 1)
  }

  /** Revealing n cards takes between 250 and 1500 ms per card. */
  lemma {:induction false} RevealTimeBounds(n: nat)
    ensures MinDelay * n as real <= RevealTime(n) <= MaxDelay * n as real
  {
    if n > 0 {
      RevealTimeBounds(n - 1);
      DelayBounds(n - 1);
    }
  }

  // ---------------------------------------------------------------------------
  // The reveal sequence
  // ---------------------------------------------------------------------------

  /**
   * A pending timeout of the sequence: the card tick scheduled by
   * scheduleNextCard(count), or one of the three end timers.
   */
  datatype Timer = CardTick(count: nat) | GridTick | ExitTick | FinishTick

  /** The delay each timer was set with, in ms. */
  function TimerDelay(t: Timer): real
  {
    match t
    case CardTick(n) => CardDelay(n)
    case GridTick => GridPause
    case ExitTick => GridHold
    case FinishTick => ExitTime
  }

  /**
   * The sequencer's state: the list length, the component state, how often
   * onFinished has been called, the one pending timeout and whether the
   * component is still mounted.
   */
  datatype Reveal = Reveal(total: nat, visible: nat, isGrid: bool, isExiting: bool,
                           finished: nat, pending: Option<Timer>, mounted: bool)

  /** scheduleNextCard(count): the grid pause once every card is out, else the next card tick. */
  function NextTimer(total: nat, count: nat): (t: Timer)
    ensures t.GridTick? <==> count >= total
  {
    if count >= total then GridTick else CardTick(count)
  }

  /** The state right after mounting: nothing visible, scheduleNextCard(0) called. */
  function Begin(total: nat): Reveal
  {
    Reveal(total, 0, false, false, 0, Some(NextTimer(total, 0)), true)
  }

  /** The pending timeout fires. */
  function Fire(s: Reveal): Reveal
  {
    match s.pending
    case None => s
    case Some(CardTick(c)) => s.(visible := s.visible + 1, pending := Some(NextTimer(s.total, c + 1)))
    case Some(GridTick) => s.(isGrid := true, pending := Some(ExitTick))
    case Some(ExitTick) => s.(isExiting := true, pending := Some(FinishTick))
    case Some(FinishTick) => s.(finished := s.finished + 1, pending := None)
  }

  /** Unmounting with a cleanup that cancels whatever timeout is pending. */
  function Unmounted(s: Reveal): Reveal
  {
    s.(pending := None, mounted := false)
  }

  /** The effect cleanup as written: it cancels only the last card tick. */
  function UnmountedAsWritten(s: Reveal): Reveal
  {
    if s.pending.Some? && s.pending.value.CardTick? then s.(pending := None, mounted := false)
    else s.(mounted := false)
  }

  /** n timeouts in a row. */
  function FireN(s: Reveal, n: nat): Reveal
    decreases n
  {
    if n == 0 then s else FireN(Fire(s), n - 1)
  }

  /**
   * What holds between timeouts: the pending card tick carries the visible
   * count; the end timers come only once every card is visible, in the
   * order grid, exit, finish; onFinished is called at most once, and only
   * after the exit. A card tick is pending only while the component is
   * mounted; the end timers may outlive it.
   */
  ghost predicate Inv(s: Reveal)
  {
    && s.visible <= s.total
    && (s.isExiting ==> s.isGrid)
    && (s.isGrid ==> s.visible == s.total)
    && s.finished <= 1
    && (s.finished == 1 ==> s.isExiting && s.pending.None?)
    && (s.pending.Some? && s.pending.value.CardTick? ==> s.mounted)
    && match s.pending
       case None => true
       case Some(CardTick(c)) => c == s.visible < s.total && !s.isGrid
       case Some(GridTick) => s.visible == s.total && !s.isGrid
       case Some(ExitTick) => s.isGrid && !s.isExiting
       case Some(FinishTick) => s.isExiting && s.finished == 0
  }

  lemma BeginInv(total: nat)
    ensures Inv(Begin(total))
  {
  }

  /**
   * Both cleanups keep the invariant and leave the component unmounted.
   * The one as written cancels a pending card tick and nothing else; the
   * corrected one leaves nothing pending.
   */
  lemma Cleanups(s: Reveal)
    requires Inv(s)
    ensures Inv(UnmountedAsWritten(s)) && Inv(Unmounted(s))
    ensures !UnmountedAsWritten(s).mounted && !Unmounted(s).mounted && Unmounted(s).pending.None?
    ensures UnmountedAsWritten(s).pending.Some? <==> s.pending.Some? && !s.pending.value.CardTick?
    ensures UnmountedAsWritten(s).pending.Some? ==> UnmountedAsWritten(s).pending == s.pending
    ensures UnmountedAsWritten(s).(pending := s.pending, mounted := s.mounted) == s
    ensures Unmounted(s).(pending := s.pending, mounted := s.mounted) == s
  {
  }

  /**
   * Each timeout changes at most one of the four observable parts, by one
   * step: a card tick adds exactly one visible card.
   */
  lemma FireStep(s: Reveal)
    requires Inv(s)
    ensures Inv(Fire(s))
    ensures Fire(s).visible == s.visible || Fire(s).visible == s.visible + 1
    ensures Fire(s).visible == s.visible + 1 <==> s.pending.Some? && s.pending.value.CardTick?
    ensures Fire(s).isGrid != s.isGrid <==> s.pending == Some(GridTick)
    ensures Fire(s).isExiting != s.isExiting <==> s.pending == Some(ExitTick)
    ensures Fire(s).finished != s.finished <==> s.pending == Some(FinishTick)
    ensures Fire(s).total == s.total && Fire(s).mounted == s.mounted
  {
  }

  lemma {:induction false} FireNInv(s: Reveal, n: nat)
    requires Inv(s)
    ensures Inv(FireN(s, n))
    decreases n
  {
    if n > 0 {
      FireStep(s);
      FireNInv(Fire(s), n - 1);
    }
  }

  /** After k card ticks from the start, k cards are visible and tick k is pending. */
  lemma {:induction false} Reveals(total: nat, k: nat)
    requires k <= total
    ensures FireN(Begin(total), k) == Reveal(total, k, false, false, 0, Some(NextTimer(total, k)), true)
  {
    if k > 0 {
      Reveals(total, k - 1);
      FireNSplit(Begin(total), k - 1, 1);
    }
  }

  lemma {:induction false} FireNSplit(s: Reveal, m: nat, n: nat)
    ensures FireN(s, m + n) == FireN(FireN(s, m), n)
    decreases m
  {
    if m > 0 {
      FireNSplit(Fire(s), m - 1, n);
    }
  }

  /**
   * The whole sequence: after one tick per card the grid pause is pending;
   * the grid, then the exit, then onFinished follow, one timeout each, and
   * then nothing is pending.
   */
  lemma Sequence(total: nat)
    ensures FireN(Begin(total), total) == Reveal(total, total, false, false, 0, Some(GridTick), true)
    ensures FireN(Begin(total), total + 1) == Reveal(total, total, true, false, 0, Some(ExitTick), true)
    ensures FireN(Begin(total), total + 2) == Reveal(total, total, true, true, 0, Some(FinishTick), true)
    ensures FireN(Begin(total), total + 3) == Reveal(total, total, true, true, 1, None, true)
    ensures forall n :: n >= total + 3 ==> FireN(Begin(total), n) == FireN(Begin(total), total + 3)
  {
    Reveals(total, total);
    FireNSplit(Begin(total), total, 1);
    FireNSplit(Begin(total), total + 1, 1);
    FireNSplit(Begin(total), total + 2, 1);
    forall n | n >= total + 3 ensures FireN(Begin(total), n) == FireN(Begin(total), total + 3) {
      FireNSplit(Begin(total), total + 3, n - total - 3);
      Quiet(FireN(Begin(total), total + 3), n - total - 3);
    }
  }

  lemma {:induction false} Quiet(s: Reveal, n: nat)
    requires s.pending.None?
    ensures FireN(s, n) == s
  {
    if n > 0 {
      Quiet(s, n - 1);
    }
  }

  /** The cards on screen: the first `visible` items, in list order. */
  function Rendered(items: seq<Product>, s: Reveal): (r: seq<(nat, Product)>)
    requires s.visible <= |items|
    ensures |r| == s.visible && forall i :: 0 <= i < |r| ==> r[i] == (i, items[i])
  {
    seq(s.visible, i requires 0 <= i < s.visible => (i, items[i]))
  }

  /** With the corrected cleanup, no timeout reaches onFinished after unmounting. */
  lemma UnmountSilences(s: Reveal, n: nat)
    ensures FireN(Unmounted(s), n) == Unmounted(s)
    ensures FireN(Unmounted(s), n).finished == s.finished
  {
    Quiet(Unmounted(s), n);
  }

  /**
   * With the cleanup as written, unmounting during the grid pause leaves the
   * end timers running: three timeouts later onFinished has been called on
   * an unmounted component.
   */
  lemma OrphanedFinish(total: nat)
    ensures var s := UnmountedAsWritten(FireN(Begin(total), total));
      !s.mounted && s.finished == 0 && FireN(s, 3).finished == 1
  {
    Sequence(total);
    var s := UnmountedAsWritten(FireN(Begin(total), total));
    assert s == Reveal(total, total, false, false, 0, Some(GridTick), false);
    assert FireN(s, 3) == FireN(Fire(s), 2) == FireN(Fire(Fire(s)), 1) == Fire(Fire(Fire(s)));
  }

  /**
   * The sequencer as a component: the state hooks, the pending timeout and
   * how often onFinished was called.
   */
  class CardSequence {
    const items: seq<Product>
    var visibleCount: nat
    var isGrid: bool
    var isExiting: bool
    var finishedCalls: nat
    var pending: Option<Timer>
    var mounted: bool

    function State(): Reveal
      reads this
    {
      Reveal(|items|, visibleCount, isGrid, isExiting, finishedCalls, pending, mounted)
    }

    /** Mounting runs the effect: scheduleNextCard(0). */
    constructor (items: seq<Product>)
      ensures State() == Begin(|items|) && this.items == items
    {
      this.items := items;
      visibleCount, isGrid, isExiting, finishedCalls, mounted := 0, false, false, 0, true;
      pending := None;
      new;
      ScheduleNextCard(0);
    }

    /** scheduleNextCard(count): set the next timeout. */
    method ScheduleNextCard(count: nat)
      modifies this`pending
      ensures pending == Some(NextTimer(|items|, count))
    {
      if count >= |items| {
        pending := Some(GridTick);
        return;
      }
      pending := Some(CardTick(count));
    }

    /** The pending timeout fires and runs its callback. */
    method Tick()
      requires Inv(State())
      modifies this
      ensures State() == Fire(old(State())) && Inv(State())
    {
      FireStep(State());
      match pending
      case None =>
      case Some(CardTick(c)) =>
        visibleCount := visibleCount + 1;
        ScheduleNextCard(c + 1);
      case Some(GridTick) =>
        isGrid := true;
        pending := Some(ExitTick);
      case Some(ExitTick) =>
        isExiting := true;
        pending := Some(FinishTick);
      case Some(FinishTick) =>
        finishedCalls := finishedCalls + 1;
        pending := None;
    }

    /**
     * Unmounting runs the cleanup, clearTimeout(timeoutId): a pending card
     * tick is cancelled, an end timer keeps running.
     */
    method Unmount()
      requires Inv(State())
      modifies this`pending, this`mounted
      ensures State() == UnmountedAsWritten(old(State())) && Inv(State())
    {
      if pending.Some? && pending.value.CardTick? {
        pending := None;
      }
      mounted := false;
      Cleanups(old(State()));
    }

    /** The cards currently rendered. */
    method Cards() returns (r: seq<(nat, Product)>)
      requires Inv(State())
      ensures visibleCount <= |items| && r == Rendered(items, State())
    {
      r := [];
      var i := 0;
      while i < visibleCount
        invariant 0 <= i <= visibleCount && |r| == i
        invariant forall j :: 0 <= j < i ==> r[j] == (j, items[j])
      {
        r := r + [(i, items[i])];
        i := i + 1;
      }
    }
  }
}
