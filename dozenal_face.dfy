/*
 * A model of the dozenal watch face of the Sensor Watch "movement" firmware.
 *
 * The face shows the time of day as four base-12 digits: the day is cut into
 * 12 parts of 7200 s, each of those into 12 parts of 600 s, each of those into
 * 12 parts of 50 s, and each of those into 12 parts of 25/6 s.  The digits are
 * drawn from the alphabet 0-9, H (ten) and E (eleven) into display cells 5..8,
 * and cell 9 is blanked.
 *
 * The framework around the face is represented abstractly: the real-time
 * clock is a parameter of Loop, the segment display is an array of ten
 * character cells, the tick rate the face requests is the constant
 * TickFrequency, and the framework's default event handler is a function
 * passed to Loop.
 */
module DozenalFace {

  datatype Option<T> = None | Some(value: T)

  /** The refresh rate, in ticks per second, that the face requests on activation. */
  const TickFrequency: nat := 64

  const SecondsPerDay: nat := 24 * 60 * 60

  /** Ticks of the 64 Hz refresh in one day: 86400 * 64. */
  const TicksPerDay: nat := 5529600

  /** 12^4: the number of smallest dozenal units in one day. */
  const DozenalUnitsPerDay: nat := 20736

  /** Number of character cells of the watch's segment display. */
  const DisplayCells: nat := 10

  /** The 12-symbol digit alphabet: digit d is shown as DozenalDigits[d]. */
  const DozenalDigits: seq<char> := ['0', '1', '2', '3', '4', '5', '6', '7', '8', '9', 'H', 'E']

  // ---------------------------------------------------------------------------
  // Clock readings and events
  // ---------------------------------------------------------------------------

  /** The part of the real-time clock reading that the face uses. */
  datatype DateTime = DateTime(hour: nat, minute: nat, second: nat)

  /** The readings the real-time clock produces. */
  predicate ValidTime(t: DateTime) {
    t.hour < 24 && t.minute < 60 && t.second < 60
  }

  /** The event kinds the face distinguishes; every other kind of the framework is Other. */
  datatype EventType =
    | Activate
    | Tick
    | LightButtonUp
    | AlarmButtonUp
    | Timeout
    | LowEnergyUpdate
    | LightButtonDown
    | ModeButtonUp
    | ModeLongPress
    | Other(code: nat)

  /** An event as delivered to the loop callback, with the tick count within the current second. */
  datatype Event = Event(eventType: EventType, subsecond: nat)

  /**
   * Events the face's own switch handles; all others go to the default
   * handler.  Exactly the press, release and long-press events other than the
   * light and alarm releases, and the kinds the face does not name, are passed on.
   */
  predicate HandledByFace(e: EventType): (b: bool)
    ensures b <==> !(e == LightButtonDown || e == ModeButtonUp || e == ModeLongPress || e.Other?)
  {
    match e
    case Activate | Tick | LightButtonUp | AlarmButtonUp | Timeout | LowEnergyUpdate => true
    case _ => false
  }

  /**
   * Events on which the face recomputes and redraws the time: they are handled
   * by the face itself, and none of the silently swallowed events redraws.
   */
  predicate Redraws(e: EventType): (b: bool)
    ensures b ==> HandledByFace(e)
    ensures b ==> e != LightButtonUp && e != AlarmButtonUp && e != Timeout && e != LowEnergyUpdate
  {
    e == Activate || e == Tick
  }

  // ---------------------------------------------------------------------------
  // The reference definition of the displayed time
  // ---------------------------------------------------------------------------

  function SecondsSinceMidnight(t: DateTime): (s: nat)
    requires ValidTime(t)
    ensures s < SecondsPerDay
    ensures s / 3600 == t.hour && s / 60 % 60 == t.minute && s % 60 == t.second
  {
    (t.hour * 60 + t.minute) * 60 + t.second
  }

  /** Ticks of the 64 Hz refresh elapsed since midnight for a clock sample. */
  function TicksSinceMidnight(t: DateTime, subsecond: nat): (n: nat)
    requires ValidTime(t) && subsecond < TickFrequency
    ensures n < TicksPerDay
    ensures n / 64 == SecondsSinceMidnight(t) && n % 64 == subsecond
  {
    SecondsSinceMidnight(t) * 64 + subsecond
  }

  /**
   * The time of day as a count of 1/20736-day units, rounded down: the
   * fraction of the day elapsed after `n` ticks, times 12^4.  This is the
   * value that the four displayed digits stand for, read as a base-12 numeral.
   */
  function DozenalOfTicks(n: nat): (v: nat)
    requires n < TicksPerDay
    ensures v < DozenalUnitsPerDay
    ensures v * 5529600 <= n * 20736 < (v + 1) * 5529600
  {
    n * 20736 / 5529600
  }

  /**
   * The dozenal time shown for a clock sample: the largest count of
   * 1/20736-day units not later than the sample's second and subsecond.
   */
  function DozenalTime(t: DateTime, subsecond: nat): (v: nat)
    requires ValidTime(t) && subsecond < TickFrequency
    ensures v < DozenalUnitsPerDay
    ensures v * 5529600 <= (SecondsSinceMidnight(t) * 64 + subsecond) * 20736 < (v + 1) * 5529600
  {
    DozenalOfTicks(TicksSinceMidnight(t, subsecond))
  }

  // ---------------------------------------------------------------------------
  // Base-12 numerals
  // ---------------------------------------------------------------------------

  function Pow12(n: nat): (p: nat)
    ensures p >= 1
  {
    if n == 0 then 1 else 12 * Pow12(n - 1)
  }

  predicate AllDigits(ds: seq<nat>) {
    forall i | 0 <= i < |ds| :: ds[i] < 12
  }

  /** The `width` lowest base-12 digits of `v`, most significant first. */
  function Digits(v: nat, width: nat): (ds: seq<nat>)
    ensures |ds| == width && AllDigits(ds)
  {
    if width == 0 then [] else Digits(v / 12, width - 1) + [v % 12]
  }

  /** The value of a base-12 numeral, most significant digit first. */
  function Numeral(ds: seq<nat>): (v: nat)
    ensures AllDigits(ds) ==> v < Pow12(|ds|)
  {
    if ds == [] then 0 else Numeral(ds[..|ds| - 1]) * 12 + ds[|ds| - 1]
  }

  /** Writing a number below 12^width with `width` digits and reading it back gives the number. */
  lemma {:induction false} NumeralOfDigits(v: nat, width: nat)
    requires v < Pow12(width)
    ensures Numeral(Digits(v, width)) == v
  {
    if width > 0 {
      var ds := Digits(v, width);
      assert ds[..width - 1] == Digits(v / 12, width - 1) && ds[width - 1] == v % 12;
      assert v / 12 < Pow12(width - 1) by {
        assert Pow12(width) == 12 * Pow12(width - 1);
      }
      NumeralOfDigits(v / 12, width - 1);
      assert v == v / 12 * 12 + v % 12;
    }
  }

  /** Reading a numeral and writing its value with as many digits gives the numeral back. */
  lemma {:induction false} DigitsOfNumeral(ds: seq<nat>)
    requires AllDigits(ds)
    ensures Digits(Numeral(ds), |ds|) == ds
  {
    if ds != [] {
      var n := |ds|;
      var prefix := ds[..n - 1];
      assert AllDigits(prefix);
      DigitsOfNumeral(prefix);
      assert Numeral(ds) / 12 == Numeral(prefix) && Numeral(ds) % 12 == ds[n - 1];
      assert ds == prefix + [ds[n - 1]];
    }
  }

  /** The four digits that the face shows, written as divisions. */
  lemma FourDigits(v: nat)
    requires v < DozenalUnitsPerDay
    ensures Digits(v, 4) == [v / 1728, v / 144 % 12, v / 12 % 12, v % 12]
  {
    assert v / 12 / 12 == v / 144;
    assert v / 144 / 12 == v / 1728;
    assert v / 1728 / 12 == 0;
    assert Digits(v / 1728, 1) == [v / 1728];
    assert Digits(v / 144, 2) == [v / 1728, v / 144 % 12];
    assert Digits(v / 12, 3) == [v / 1728, v / 144 % 12, v / 12 % 12];
  }

  // ---------------------------------------------------------------------------
  // The digit alphabet
  // ---------------------------------------------------------------------------

  /** The digit a display character stands for, if it is one of the alphabet. */
  function GlyphValue(c: char): (d: Option<nat>)
  {
    if '0' <= c <= '9' then Some(c as nat - '0' as nat)
    else if c == 'H' then Some(10)
    else if c == 'E' then Some(11)
    else None
  }

  /** Reading a drawn digit back gives the digit. */
  lemma GlyphRoundTrip(d: nat)
    requires d < 12
    ensures GlyphValue(DozenalDigits[d]) == Some(d)
  {
  }

  /** Every character that reads as a digit is that digit's glyph. */
  lemma GlyphValueSound(c: char)
    requires GlyphValue(c).Some?
    ensures GlyphValue(c).value < 12 && DozenalDigits[GlyphValue(c).value] == c
  {
  }

  /** The alphabet is injective: distinct digits are drawn as distinct characters. */
  lemma GlyphsDistinct(d1: nat, d2: nat)
    requires d1 < 12 && d2 < 12
    ensures DozenalDigits[d1] == DozenalDigits[d2] <==> d1 == d2
  {
    GlyphRoundTrip(d1);
    GlyphRoundTrip(d2);
  }

  /** The characters that draw a sequence of digits. */
  function Glyphs(ds: seq<nat>): (s: seq<char>)
    requires AllDigits(ds)
    ensures |s| == |ds|
    ensures forall i | 0 <= i < |ds| :: s[i] == DozenalDigits[ds[i]]
  {
    if ds == [] then [] else [DozenalDigits[ds[0]]] + Glyphs(ds[1..])
  }

  /** The digits that a sequence of characters draws, if every character is a glyph. */
  function ReadGlyphs(s: seq<char>): (r: Option<seq<nat>>)
    ensures r.Some? ==> |r.value| == |s| && AllDigits(r.value)
    ensures r.Some? ==> forall i | 0 <= i < |s| :: DozenalDigits[r.value[i]] == s[i]
    ensures r.None? ==> exists i | 0 <= i < |s| :: GlyphValue(s[i]).None?
  {
    if s == [] then Some([])
    else
      var first := GlyphValue(s[0]);
      var rest := ReadGlyphs(s[1..]);
      if first.None? then None
      else if rest.None? then
        assert forall i | 0 <= i < |s| - 1 :: s[1..][i] == s[i + 1];
        None
      else
        GlyphValueSound(s[0]);
        Some([first.value] + rest.value)
  }

  lemma {:induction false} ReadGlyphsRoundTrip(ds: seq<nat>)
    requires AllDigits(ds)
    ensures ReadGlyphs(Glyphs(ds)) == Some(ds)
  {
    if ds != [] {
      var s := Glyphs(ds);
      GlyphRoundTrip(ds[0]);
      assert GlyphValue(s[0]) == Some(ds[0]);
      assert s[1..] == Glyphs(ds[1..]);
      ReadGlyphsRoundTrip(ds[1..]);
      assert [ds[0]] + ds[1..] == ds;
    }
  }

  // ---------------------------------------------------------------------------
  // What the face shows
  // ---------------------------------------------------------------------------

  /** The five characters written to cells 5..9 for dozenal time `v`. */
  function FaceText(v: nat): (s: seq<char>)
    requires v < DozenalUnitsPerDay
    ensures s == [DozenalDigits[v / 1728], DozenalDigits[v / 144 % 12],
                  DozenalDigits[v / 12 % 12], DozenalDigits[v % 12], ' ']
  {
    FourDigits(v);
    Glyphs(Digits(v, 4)) + [' ']
  }

  /** Reads the dozenal time back from the five characters of the face, if they are well formed. */
  function ReadFace(s: seq<char>): (v: Option<nat>)
  {
    if |s| == 5 && s[4] == ' ' then
      match ReadGlyphs(s[..4])
      case Some(ds) => Some(Numeral(ds))
      case None => None
    else None
  }

  /** The face text determines the time it shows. */
  lemma FaceRoundTrip(v: nat)
    requires v < DozenalUnitsPerDay
    ensures ReadFace(FaceText(v)) == Some(v)
  {
    var ds := Digits(v, 4);
    assert FaceText(v)[..4] == Glyphs(ds);
    ReadGlyphsRoundTrip(ds);
    NumeralOfDigits(v, 4);
  }

  /** Every well-formed face text is the text of exactly the time it reads as. */
  lemma ReadFaceSound(s: seq<char>)
    requires ReadFace(s).Some?
    ensures ReadFace(s).value < DozenalUnitsPerDay && FaceText(ReadFace(s).value) == s
  {
    var ds := ReadGlyphs(s[..4]).value;
    DigitsOfNumeral(ds);
    assert Glyphs(ds) == s[..4];
    assert s == s[..4] + [' '];
  }

  /** Distinct dozenal times display distinctly. */
  lemma FaceTextInjective(v1: nat, v2: nat)
    requires v1 < DozenalUnitsPerDay && v2 < DozenalUnitsPerDay
    ensures FaceText(v1) == FaceText(v2) <==> v1 == v2
  {
    FaceRoundTrip(v1);
    FaceRoundTrip(v2);
  }

  // ---------------------------------------------------------------------------
  // The source's arithmetic, stated against the reference definition
  // ---------------------------------------------------------------------------

  /**
   * The three integer divisions of the loop: for a second of the day, the
   * quotients by 7200, 600 and 50 are digits, and they recombine exactly
   * with the final remainder, which is below 50.
   */
  lemma MixedRadixSplit(tsec: nat)
    requires tsec < SecondsPerDay
    ensures tsec / 7200 < 12
    ensures tsec % 7200 / 600 < 12
    ensures tsec % 7200 % 600 / 50 < 12
    ensures tsec % 7200 % 600 % 50 < 50
    ensures tsec / 7200 * 7200 + tsec % 7200 / 600 * 600 + tsec % 7200 % 600 / 50 * 50
            + tsec % 7200 % 600 % 50 == tsec
  {
  }

  /**
   * The fourth digit: the remainder below 50 s plus the subsecond fraction,
   * divided exactly by 4 + 1/6 and rounded down, is the integer
   * (384 r + 6 sub) / 1600 and lies in [0, 11].
   */
  lemma FourthDigit(r: nat, subsecond: nat)
    requires r < 50 && subsecond < TickFrequency
    ensures ((r as real + subsecond as real / 64.0) / (4.0 + 1.0 / 6.0)).Floor
            == (384 * r + 6 * subsecond) / 1600
    ensures 0 <= (384 * r + 6 * subsecond) / 1600 < 12
  {
    var n := 384 * r + 6 * subsecond;
    var q := n / 1600;
    var x := (r as real + subsecond as real / 64.0) / (4.0 + 1.0 / 6.0);
    assert x == n as real / 1600.0;
    assert q as real * 1600.0 <= n as real < (q + 1) as real * 1600.0;
    assert q as real <= x < (q + 1) as real;
  }

  /**
   * The integer core of the split: the quotients by 7200, 600 and 50, and the
   * integer form of the fourth division, are the base-12 digits of
   * (64 tsec + sub) * 12^4 / 5529600.
   */
  lemma SplitDivisions(tsec: nat, subsecond: nat, v: nat)
    requires tsec < SecondsPerDay && subsecond < TickFrequency
    requires v == (tsec * 64 + subsecond) * 20736 / 5529600
    ensures v / 1728 == tsec / 7200
    ensures v / 144 % 12 == tsec % 7200 / 600
    ensures v / 12 % 12 == tsec % 7200 % 600 / 50
    ensures v % 12 == (384 * (tsec % 7200 % 600 % 50) + 6 * subsecond) / 1600
  {
    var d1, d2, d3, r := tsec / 7200, tsec % 7200 / 600, tsec % 7200 % 600 / 50, tsec % 7200 % 600 % 50;
    MixedRadixSplit(tsec);
    FourthDigit(r, subsecond);
    var n := 384 * r + 6 * subsecond;
    var k := 1728 * d1 + 144 * d2 + 12 * d3;
    // 64 * 20736 * (7200 d1 + 600 d2 + 50 d3) == 5529600 * k, and
    // (64 r + sub) * 20736 == 3456 * n, with 3456 * 1600 == 5529600.
    assert (tsec * 64 + subsecond) * 20736 == 5529600 * k + 3456 * n;
    DivShift(k, n);
    DigitsOfSum(d1, d2, d3, n / 1600);
  }

  /** Four digits below 12 are recovered from their base-12 value by division and remainder. */
  lemma DigitsOfSum(d1: nat, d2: nat, d3: nat, d4: nat)
    requires d1 < 12 && d2 < 12 && d3 < 12 && d4 < 12
    ensures var v := 1728 * d1 + 144 * d2 + 12 * d3 + d4;
      v / 1728 == d1 && v / 144 % 12 == d2 && v / 12 % 12 == d3 && v % 12 == d4
  {
    var v := 1728 * d1 + 144 * d2 + 12 * d3 + d4;
    assert v / 12 == 144 * d1 + 12 * d2 + d3;
    assert v / 144 == 12 * d1 + d2;
  }

  /**
   * The loop's digits are the base-12 digits of the reference dozenal time:
   * the mixed-radix split of seconds since midnight followed by the
   * fractional fourth division gives exactly floor(day fraction * 12^4).
   */
  lemma SplitIsBase12(tsec: nat, subsecond: nat)
    requires tsec < SecondsPerDay && subsecond < TickFrequency
    ensures var ds := Digits(DozenalOfTicks(tsec * 64 + subsecond), 4);
      && ds[0] == tsec / 7200
      && ds[1] == tsec % 7200 / 600
      && ds[2] == tsec % 7200 % 600 / 50
      && ds[3] == (((tsec % 7200 % 600 % 50) as real + subsecond as real / 64.0)
                   / (4.0 + 1.0 / 6.0)).Floor
  {
    var v := DozenalOfTicks(tsec * 64 + subsecond);
    SplitDivisions(tsec, subsecond, v);
    FourthDigit(tsec % 7200 % 600 % 50, subsecond);
    FourDigits(v);
  }

  /**
   * The digits the loop computes for a clock sample, step by step from the
   * seconds since midnight, index the alphabet and draw the face text of
   * that sample's dozenal time.
   */
  lemma DrawnDigits(now: DateTime, subsecond: nat, dig1: int, dig2: int, dig3: int, dig4: int)
    requires ValidTime(now) && subsecond < TickFrequency
    requires var tsec := SecondsSinceMidnight(now);
      && dig1 == tsec / 7200 && dig2 == tsec % 7200 / 600 && dig3 == tsec % 7200 % 600 / 50
      && dig4 == (((tsec % 7200 % 600 % 50) as real + subsecond as real / 64.0) / (4.0 + 1.0 / 6.0)).Floor
    ensures 0 <= dig1 < 12 && 0 <= dig2 < 12 && 0 <= dig3 < 12 && 0 <= dig4 < 12
    ensures FaceText(DozenalTime(now, subsecond))
            == [DozenalDigits[dig1], DozenalDigits[dig2], DozenalDigits[dig3], DozenalDigits[dig4], ' ']
  {
    var tsec := SecondsSinceMidnight(now);
    var v := DozenalOfTicks(tsec * 64 + subsecond);
    assert DozenalTime(now, subsecond) == v;
    SplitIsBase12(tsec, subsecond);
    FourDigits(v);
  }

  /** Dividing 5529600 k + 3456 n by 5529600 gives k + n / 1600. */
  lemma DivShift(k: nat, n: nat)
    ensures (5529600 * k + 3456 * n) / 5529600 == k + n / 1600
  {
    var q, m := n / 1600, n % 1600;
    assert 3456 * n == 5529600 * q + 3456 * m;
    assert 0 <= 3456 * m < 5529600;
  }

  // ---------------------------------------------------------------------------
  // Consequences for the reader of the watch
  // ---------------------------------------------------------------------------

  /** As the clock advances within a day, the displayed dozenal time never decreases. */
  lemma DozenalTimeMonotone(n1: nat, n2: nat)
    requires n1 <= n2 < TicksPerDay
    ensures DozenalOfTicks(n1) <= DozenalOfTicks(n2)
  {
    var v1, v2 := DozenalOfTicks(n1), DozenalOfTicks(n2);
    assert v1 * 5529600 <= n1 * 20736 <= n2 * 20736 < (v2 + 1) * 5529600;
  }

  lemma MidnightShowsZeros()
    ensures FaceText(DozenalTime(DateTime(0, 0, 0), 0)) == "0000 "
  {
    assert DozenalTime(DateTime(0, 0, 0), 0) == 0;
    assert FaceText(0) == [DozenalDigits[0], DozenalDigits[0], DozenalDigits[0], DozenalDigits[0], ' '];
  }

  lemma TwoOClockShowsOneThousand()
    ensures FaceText(DozenalTime(DateTime(2, 0, 0), 0)) == "1000 "
  {
    assert DozenalTime(DateTime(2, 0, 0), 0) == 1728;
    assert 1728 / 144 % 12 == 0 && 1728 / 12 % 12 == 0;
    assert FaceText(1728) == [DozenalDigits[1], DozenalDigits[0], DozenalDigits[0], DozenalDigits[0], ' '];
  }

  lemma NoonShowsSixThousand()
    ensures FaceText(DozenalTime(DateTime(12, 0, 0), 0)) == "6000 "
  {
    assert DozenalTime(DateTime(12, 0, 0), 0) == 10368;
    assert 10368 / 1728 == 6 && 10368 / 144 % 12 == 0 && 10368 / 12 % 12 == 0 && 10368 % 12 == 0;
    assert FaceText(10368) == [DozenalDigits[6], DozenalDigits[0], DozenalDigits[0], DozenalDigits[0], ' '];
  }

  /** The last tick of the day shows the largest value, EEEE. */
  lemma LastTickShowsElevens()
    ensures DozenalTime(DateTime(23, 59, 59), TickFrequency - 1) == DozenalUnitsPerDay - 1
    ensures FaceText(DozenalTime(DateTime(23, 59, 59), TickFrequency - 1)) == "EEEE "
  {
    assert DozenalTime(DateTime(23, 59, 59), 63) == 20735;
    assert 20735 / 1728 == 11 && 20735 / 144 % 12 == 11 && 20735 / 12 % 12 == 11 && 20735 % 12 == 11;
    assert FaceText(20735) == [DozenalDigits[11], DozenalDigits[11], DozenalDigits[11], DozenalDigits[11], ' '];
  }

  // ---------------------------------------------------------------------------
  // The face's callbacks
  // ---------------------------------------------------------------------------

  newtype uint8 = x: int | 0 <= x < 256

  /** The face's private state block; its single byte is never used. */
  datatype DozenalState = DozenalState(unused: uint8)

  /** The context slot the framework keeps for the face (`void **context_ptr`). */
  class ContextSlot {
    var context: Option<DozenalState>

    constructor ()
      ensures context == None
    {
      context := None;
    }

    /** Allocates a zeroed state on the first call only. */
    method Setup()
      modifies this
      ensures context.Some?
      ensures old(context).None? ==> context == Some(DozenalState(0))
      ensures old(context).Some? ==> context == old(context)
    {
      if context == None {
        context := Some(DozenalState(0));
      }
    }
  }

  /** Calling setup again, as the framework does on every wake, changes nothing. */
  method SetupIdempotent(slot: ContextSlot)
    modifies slot
    ensures slot.context == if old(slot.context).None? then Some(DozenalState(0)) else old(slot.context)
  {
    slot.Setup();
    ghost var first := slot.context;
    slot.Setup();
    assert slot.context == first;
  }

  /**
   * The loop callback.  On ACTIVATE and TICK it splits the seconds since
   * midnight into digits and draws them into cells 5..9; other events the
   * face handles do nothing; the rest go to the default handler, whose
   * answer is returned.  The result says whether the watch may enter standby.
   */
  method Loop(event: Event, now: DateTime, defaultHandler: Event -> bool, display: array<char>)
    returns (canSleep: bool)
    requires display.Length == DisplayCells
    requires Redraws(event.eventType) ==> ValidTime(now) && event.subsecond < TickFrequency
    modifies display
    ensures Redraws(event.eventType) ==>
              display[..] == old(display[..5]) + FaceText(DozenalTime(now, event.subsecond))
    ensures !Redraws(event.eventType) ==> display[..] == old(display[..])
    ensures canSleep == if HandledByFace(event.eventType) then true else defaultHandler(event)
  {
    match event.eventType {
      case Activate | Tick =>
        var tsec: nat := (now.hour * 60 + now.minute) * 60 + now.second;
        ghost var total := tsec;
        var dig1 := tsec / (2 * 60 * 60);
        tsec := tsec % (2 * 60 * 60);
        var dig2 := tsec / (10 * 60);
        tsec := tsec % (10 * 60);
        var dig3 := tsec / 50;
        tsec := tsec % 50;
        var tsubsec: real := tsec as real + event.subsecond as real / 64.0;
        var dig4 := (tsubsec / (4.0 + 1.0 / 6.0)).Floor;

        assert total == SecondsSinceMidnight(now);
        DrawnDigits(now, event.subsecond, dig1, dig2, dig3, dig4);

        display[5] := DozenalDigits[dig1];
        display[6] := DozenalDigits[dig2];
        display[7] := DozenalDigits[dig3];
        display[8] := DozenalDigits[dig4];
        display[9] := ' ';
        canSleep := true;
      case LightButtonUp | AlarmButtonUp | Timeout | LowEnergyUpdate =>
        canSleep := true;
      case _ =>
        canSleep := defaultHandler(event);
    }
  }
}
