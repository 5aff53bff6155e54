/**
 * A project's start/stop button and the elapsed time beside it. A call of
 * `timer` on "Başlat" (start) relabels the button "Durdur" (stop) and starts a
 * fresh count at 0; a call on "Durdur" relabels it "Başlat" and stops the count.
 * Each tick of a running count adds one and redraws the three fields. Clicks
 * reach `timer` only through the list's class-name test, which as written lets
 * through the first click alone; `ClickAsWritten` models that test and `Click`
 * the dispatch the button evidently intends.
 */
module Stopwatch {
  import opened Clock

  const StartLabel: string := "Başlat"
  const StopLabel: string := "Durdur"

  /**
   * What one project's timer shows and holds: the button text, whether the
   * button carries the `durdur` class, whether a count is ticking, the count of
   * the current (or last) run, and the count whose rendering the three fields
   * last received (0 for the initial 00:00:00, see `Clock.RenderZero`).
   */
  datatype Button = Button(text: string, stopStyle: bool, running: bool, count: nat, shownCount: nat)

  /** The text of the hours, minutes and seconds fields. */
  function Shown(b: Button): Display {
    Render(b.shownCount)
  }

  /** A freshly added project: a start button and 00:00:00. */
  function NewButton(): Button {
    Button(StartLabel, false, false, 0, 0)
  }

  /**
   * A call of `timer`: the `durdur` class always flips and the fields keep their
   * text; the label decides between start and stop.
   */
  function Toggle(b: Button): (r: Button)
    ensures r.stopStyle == !b.stopStyle && r.shownCount == b.shownCount
  {
    var flipped := b.(stopStyle := !b.stopStyle);
    if b.text == StartLabel then flipped.(text := StopLabel, running := true, count := 0)
    else if b.text == StopLabel then flipped.(text := StartLabel, running := false)
    else flipped
  }

  /** One tick of the interval; a stopped button has no interval and does not change. */
  function Tick(b: Button): (r: Button)
    ensures r.text == b.text && r.stopStyle == b.stopStyle && r.running == b.running
    ensures r.count == if b.running then b.count + 1 else b.count
  {
    if b.running then b.(count := b.count + 1, shownCount := b.count + 1) else b
  }

  /** The button after n ticks of its interval: ticks never touch the label or the class. */
  function Ticks(b: Button, n: nat): (r: Button)
    ensures r.text == b.text && r.stopStyle == b.stopStyle && r.running == b.running
    ensures r.count == if b.running then b.count + n else b.count
    decreases n
  {
    if n == 0 then b else Ticks(Tick(b), n - 1)
  }

  /**
   * The states a button can be in: labelled start or stop, ticking exactly when
   * labelled stop, styled exactly when ticking, and showing the rendering of
   * its count once that count has ticked at least once.
   */
  predicate Consistent(b: Button) {
    && (b.text == StartLabel || b.text == StopLabel)
    && (b.running <==> b.text == StopLabel)
    && (b.stopStyle <==> b.running)
    && (b.count > 0 ==> b.shownCount == b.count)
  }

  lemma NewButtonConsistent()
    ensures Consistent(NewButton()) && !NewButton().running
    ensures Shown(NewButton()) == Display("00", "00", "00")
  {
    RenderZero();
  }

  /**
   * A call of `timer` turns start into stop and stop into start, flips whether
   * the count runs, and keeps the button consistent.
   */
  lemma ToggleFlips(b: Button)
    requires Consistent(b)
    ensures Consistent(Toggle(b))
    ensures Toggle(b).text == if b.text == StartLabel then StopLabel else StartLabel
    ensures Toggle(b).running == !b.running
  {
  }

  /**
   * Two calls of `timer` bring back the label, the style, the running state and
   * the fields, but not the count: whichever call starts the count resets it.
   */
  lemma ToggleTwice(b: Button)
    requires Consistent(b)
    ensures Toggle(Toggle(b)).text == b.text
    ensures Toggle(Toggle(b)).stopStyle == b.stopStyle
    ensures Toggle(Toggle(b)).running == b.running
    ensures Shown(Toggle(Toggle(b))) == Shown(b)
    ensures Toggle(Toggle(b)).count == 0
  {
    ToggleFlips(b);
    ToggleFlips(Toggle(b));
  }

  /**
   * Starting always begins a new count at 0, whatever the last run reached;
   * the fields keep their old text until the first tick.
   */
  lemma StartResetsCount(b: Button)
    requires Consistent(b) && b.text == StartLabel
    ensures Toggle(b).running && Toggle(b).count == 0 && Shown(Toggle(b)) == Shown(b)
  {
  }

  /** Stopping keeps the count and the fields as they are. */
  lemma StopKeepsCount(b: Button)
    requires Consistent(b) && b.text == StopLabel
    ensures !Toggle(b).running && Toggle(b).count == b.count && Shown(Toggle(b)) == Shown(b)
  {
  }

  /** A tick of a running button adds one to the count and shows the rendering of the new count. */
  lemma TickAdvances(b: Button)
    requires Consistent(b) && b.running
    ensures Consistent(Tick(b)) && Tick(b).running && Tick(b).text == b.text
    ensures Tick(b).count == b.count + 1 && Tick(b).shownCount == b.count + 1
  {
  }

  /** A stopped button does not change however many ticks pass. */
  lemma {:induction false} StoppedIsFrozen(b: Button, n: nat)
    requires !b.running
    ensures Ticks(b, n) == b
    decreases n
  {
    if n > 0 {
      StoppedIsFrozen(Tick(b), n - 1);
    }
  }

  /**
   * While running, n ticks add n to the count, and the fields show the
   * rendering of the new count.
   */
  lemma {:induction false} RunningTicks(b: Button, n: nat)
    requires Consistent(b) && b.running
    ensures Consistent(Ticks(b, n)) && Ticks(b, n).running
    ensures Ticks(b, n).count == b.count + n
    ensures Ticks(b, n).text == b.text
    ensures b.count + n > 0 ==> Ticks(b, n).shownCount == b.count + n
    decreases n
  {
    if n > 0 {
      TickAdvances(b);
      RunningTicks(Tick(b), n - 1);
      assert Ticks(b, n) == Ticks(Tick(b), n - 1);
    }
  }

  /** The classes the button carries, in order: `btn start`, then `durdur` while it is on. */
  function Classes(b: Button): seq<string> {
    ["btn", "start"] + if b.stopStyle then ["durdur"] else []
  }

  /** Class names separated by single spaces, as `className` spells a class list. */
  function Join(names: seq<string>): (s: string)
    ensures |names| == 1 ==> s == names[0]
  {
    if |names| <= 1 then (if names == [] then "" else names[0])
    else Join(names[..|names| - 1]) + " " + names[|names| - 1]
  }

  /** The button's `className`. */
  function ClassName(b: Button): string {
    Join(Classes(b))
  }

  /** The list's click test as written: only these two exact class names reach `timer`. */
  predicate ReachesTimerAsWritten(b: Button) {
    ClassName(b) == "btn start" || ClassName(b) == "btn start stop"
  }

  /** A click on the button as the list's click handler dispatches it. */
  function ClickAsWritten(b: Button): (r: Button)
    ensures b.stopStyle ==> r == b
    ensures !b.stopStyle ==> r == Toggle(b)
  {
    ReachesTimerIffUnstyled(b);
    if ReachesTimerAsWritten(b) then Toggle(b) else b
  }

  /** As written, a click reaches `timer` exactly when the `durdur` class is off. */
  lemma ReachesTimerIffUnstyled(b: Button)
    ensures ReachesTimerAsWritten(b) <==> !b.stopStyle
  {
    var names := Classes(b);
    assert Join(names[..1]) == "btn" by {
      assert names[..1] == ["btn"];
    }
    assert Join(names[..2]) == "btn start" by {
      assert names[..2][..1] == names[..1];
    }
    if b.stopStyle {
      assert ClassName(b) == "btn start durdur";
    } else {
      assert names == names[..2];
    }
  }

  /**
   * As written, the first click starts the count and every later click is
   * ignored: after any number of ticks the button still says "Durdur", still
   * runs, and a click leaves it as it is.
   */
  lemma SecondClickIgnored(n: nat)
    ensures var started := Ticks(ClickAsWritten(NewButton()), n);
            started.text == StopLabel && started.running
            && ClickAsWritten(started) == started
  {
  }

  /**
   * As written, time is never reset after the first run starts: click, n1
   * ticks, click, click and n2 ticks leave the count at n1 + n2, because the
   * two later clicks do not reach `timer`.
   */
  lemma LaterClicksKeepCounting(n1: nat, n2: nat)
    ensures Ticks(ClickAsWritten(ClickAsWritten(Ticks(ClickAsWritten(NewButton()), n1))), n2).count
            == n1 + n2
  {
    SecondClickIgnored(n1);
  }

  /**
   * A click as the button evidently intends: every click on a button carrying
   * the `start` class reaches `timer`, whether or not it also carries `durdur`.
   */
  function Click(b: Button): (r: Button)
    ensures r.stopStyle == !b.stopStyle && r.shownCount == b.shownCount
  {
    assert Classes(b)[1] == "start";
    if "start" in Classes(b) then Toggle(b) else b
  }

  /** Every click on the start/stop button is a call of `timer`. */
  lemma ClickIsToggle(b: Button)
    ensures Click(b) == Toggle(b)
  {
    assert Classes(b)[1] == "start";
  }

  /**
   * With every click dispatched, a second click stops the count that the first
   * one started, keeping the n ticks it reached.
   */
  lemma ClickTwiceStops(n: nat)
    ensures var started := Ticks(Click(NewButton()), n);
            started.running && started.count == n
            && Click(started).text == StartLabel && !Click(started).running
            && Click(started).count == n
  {
    ClickIsToggle(NewButton());
    var started := Ticks(Click(NewButton()), n);
    ClickIsToggle(started);
  }

  /** With the intended dispatch, a run started with a click and left for n ticks shows the rendering of n. */
  lemma StartThenTicks(b: Button, n: nat)
    requires Consistent(b) && b.text == StartLabel
    ensures Ticks(Click(b), n).count == n
    ensures n > 0 ==> Shown(Ticks(Click(b), n)) == Render(n)
  {
    ClickIsToggle(b);
    ToggleFlips(b);
    RunningTicks(Toggle(b), n);
  }

  /**
   * With the intended dispatch, time is not carried over between runs: click,
   * n1 ticks, click, click and n2 ticks leave the count at n2.
   */
  lemma SecondRunStartsFromZero(b: Button, n1: nat, n2: nat)
    requires Consistent(b) && b.text == StartLabel
    ensures Ticks(Click(Click(Ticks(Click(b), n1))), n2).count == n2
  {
    ClickIsToggle(b);
    var first := Ticks(Click(b), n1);
    ToggleFlips(b);
    RunningTicks(Toggle(b), n1);
    ClickIsToggle(first);
    ToggleFlips(first);
    StartThenTicks(Click(first), n2);
  }
}
