# Dozenal watch face

A Dafny model of the dozenal ("base-12") watch face for the Sensor Watch
`movement` firmware, file `movement/watch_faces/clock/dozenal_face.c`.

The face shows the time of day as four base-12 digits drawn with the
alphabet `0`-`9`, `H` (ten), `E` (eleven). On every ACTIVATE and TICK event it
reads the real-time clock, takes the seconds since midnight, peels off digits
with the divisors 7200, 600 and 50, divides the remaining seconds plus the
subsecond fraction (ticks of the 64 Hz refresh) by 4 + 1/6, and writes the four
digit characters and a blank into display cells 5 to 9. LIGHT_BUTTON_UP,
ALARM_BUTTON_UP, TIMEOUT and LOW_ENERGY_UPDATE are swallowed; every other
event, including LIGHT_BUTTON_DOWN, MODE_BUTTON_UP and MODE_LONG_PRESS, goes to
the framework's default loop handler. Setup allocates a zeroed state block once, when the
context slot is still empty.

Everything is in one module, `DozenalFace` (`dozenal_face.dfy`):

- `Loop` is the loop callback as an imperative method that writes a
  ten-cell `array<char>` display in place, reassigning a local `tsec` step by
  step as the C code does, with the fourth division done on exact `real`s and
  `.Floor`. Its postcondition says the display becomes the old cells 0..4
  followed by `FaceText(DozenalTime(now, subsecond))`, that no cell changes on
  any other event, and what it returns for every event.
- `DozenalTime` (through `DozenalOfTicks`) is an independent reference
  definition of what the face shows: the elapsed fraction of the day (ticks
  since midnight over the 5 529 600 ticks of a day) times 12^4, rounded down,
  written as four base-12 digits (`Digits`, with `Numeral` as its inverse).
  `SplitIsBase12` proves
  that the source's mixed-radix divisions produce exactly the base-12 digits
  of that number, which gives monotonicity within a day and the worked
  boundary cases.
- `ReadFace` parses the five displayed characters back; `FaceRoundTrip`
  proves that reading the face returns the dozenal time it was drawn from,
  so distinct times are displayed distinctly, and `ReadFaceSound` proves the
  converse: every readable face is the face of the time it reads as.
- `ContextSlot` stands for the framework's `void **context_ptr`, with the
  context as `Option<DozenalState>`; `Setup` mutates it.

The framework is represented abstractly: the clock reading and the event's
subsecond count are parameters of `Loop`, the display is an array, the
requested tick rate is the constant `TickFrequency` (64), and
`movement_default_loop_handler` is a function parameter of `Loop` whose result
is returned unchanged. `Loop` requires, on ACTIVATE and TICK only, a clock
reading with hour < 24, minute < 60, second < 60 and a subsecond below 64:
that is what the real-time clock and the 64 Hz tick deliver, and the C code
relies on it for the table index to stay in bounds.

The model follows `dozenal_face.c`, which requests 64 Hz and draws one
character at a time: the subsecond fraction is `subsecond / 64`.

## Model

| member | source | states |
|---|---|---|
| `DozenalFace.HandledByFace` | movement/watch_faces/clock/dozenal_face.c:66-150 | the face's own switch handles an event exactly when it is not LIGHT_BUTTON_DOWN, MODE_BUTTON_UP, MODE_LONG_PRESS or a kind the face does not name; those reach the default handler |
| `DozenalFace.Redraws` | movement/watch_faces/clock/dozenal_face.c:67-68 | the events that redraw (ACTIVATE and TICK) are handled by the face, and none of LIGHT_BUTTON_UP, ALARM_BUTTON_UP, TIMEOUT, LOW_ENERGY_UPDATE redraws |
| `DozenalFace.SecondsSinceMidnight` | movement/watch_faces/clock/dozenal_face.c:74 | for a valid clock reading the seconds since midnight are below 86400, and hour, minute and second are recovered from them by division and remainder |
| `DozenalFace.TicksSinceMidnight` | movement/watch_faces/clock/dozenal_face.c:74-84 | the sample as 64 Hz ticks since midnight is below 5529600 ticks and splits back into seconds since midnight and subsecond |
| `DozenalFace.DozenalOfTicks` | movement/watch_faces/clock/dozenal_face.c:74-85 | the displayed value is the floor of the elapsed day fraction times 12^4: it lies in [0, 20736) and v/20736 <= ticks/5529600 < (v+1)/20736 |
| `DozenalFace.DozenalTime` | movement/watch_faces/clock/dozenal_face.c:74-85 | the value shown for a clock sample is below 20736 and is the largest count of 1/20736-day units not after the sample: v * 5529600 <= (64 tsec + sub) * 20736 < (v + 1) * 5529600 |
| `DozenalFace.Digits` | movement/watch_faces/clock/dozenal_face.c:77-85 | writing a number with `width` base-12 digits yields exactly `width` digits, each in [0, 11] |
| `DozenalFace.Numeral` | movement/watch_faces/clock/dozenal_face.c:77-85 | a numeral of n digits in [0, 11] has a value below 12^n |
| `DozenalFace.NumeralOfDigits` | movement/watch_faces/clock/dozenal_face.c:77-85 | a number below 12^width written with `width` digits reads back as the same number |
| `DozenalFace.DigitsOfNumeral` | movement/watch_faces/clock/dozenal_face.c:77-85 | a numeral of digits in [0, 11] is exactly the digit string of its own value |
| `DozenalFace.MixedRadixSplit` | movement/watch_faces/clock/dozenal_face.c:77-82 | the quotients by 7200, 600 and 50 each lie in [0, 11], the final remainder lies in [0, 50), and digits and remainder recombine exactly to the seconds since midnight |
| `DozenalFace.FourthDigit` | movement/watch_faces/clock/dozenal_face.c:84-85 | the remainder plus subsecond/64, divided exactly by 4 + 1/6 and rounded down, equals (384 r + 6 sub) / 1600 and lies in [0, 11], so the table index at line 94 is in bounds |
| `DozenalFace.SplitDivisions` | movement/watch_faces/clock/dozenal_face.c:77-85 | the quotients by 7200, 600 and 50 and the integer form of the fourth division are the base-12 digits of (64 tsec + sub) * 20736 / 5529600 |
| `DozenalFace.SplitIsBase12` | movement/watch_faces/clock/dozenal_face.c:77-85 | the four digits the loop computes, including the exact real fourth division, are the four base-12 digits of the reference dozenal time |
| `DozenalFace.DrawnDigits` | movement/watch_faces/clock/dozenal_face.c:74-95 | the digits computed from a clock sample are each in [0, 11], so every table lookup is in bounds, and the four looked-up characters plus a blank are the face text of that sample's dozenal time |
| `DozenalFace.GlyphRoundTrip` | movement/watch_faces/clock/dozenal_face.c:37 | reading the table's character for digit d (d < 12) back gives d |
| `DozenalFace.GlyphValueSound` | movement/watch_faces/clock/dozenal_face.c:37 | every character that reads as a digit is that digit's table entry |
| `DozenalFace.GlyphsDistinct` | movement/watch_faces/clock/dozenal_face.c:37 | the 12-entry table is injective: two digits are drawn alike exactly when they are equal |
| `DozenalFace.Glyphs` | movement/watch_faces/clock/dozenal_face.c:91-94 | the characters drawn for a digit string are, position by position, the table entries of its digits |
| `DozenalFace.ReadGlyphs` | movement/watch_faces/clock/dozenal_face.c:37 | reading characters back succeeds with one digit in [0, 11] per character whose table entry is that character, and fails only when some character is not in the table |
| `DozenalFace.ReadGlyphsRoundTrip` | movement/watch_faces/clock/dozenal_face.c:37 | reading back the characters drawn for a digit string returns that digit string |
| `DozenalFace.FaceText` | movement/watch_faces/clock/dozenal_face.c:91-95 | the five characters for time v are the table entries of its base-12 digits v / 1728, v / 144 mod 12, v / 12 mod 12 and v mod 12, most significant first, followed by a blank |
| `DozenalFace.FaceRoundTrip` | movement/watch_faces/clock/dozenal_face.c:91-95 | parsing the five drawn characters returns the dozenal time they were drawn from |
| `DozenalFace.ReadFaceSound` | movement/watch_faces/clock/dozenal_face.c:91-95 | every five characters that read as a dozenal time are exactly the face text of that time, which is below 20736 |
| `DozenalFace.FaceTextInjective` | movement/watch_faces/clock/dozenal_face.c:91-95 | two dozenal times produce the same five characters exactly when they are equal |
| `DozenalFace.DozenalTimeMonotone` | movement/watch_faces/clock/dozenal_face.c:74-85 | a later tick within the same day never shows a smaller dozenal time |
| `DozenalFace.MidnightShowsZeros` | movement/watch_faces/clock/dozenal_face.c:74-95 | 00:00:00 at subsecond 0 shows "0000 " |
| `DozenalFace.TwoOClockShowsOneThousand` | movement/watch_faces/clock/dozenal_face.c:74-95 | 02:00:00 at subsecond 0 shows "1000 " |
| `DozenalFace.NoonShowsSixThousand` | movement/watch_faces/clock/dozenal_face.c:74-95 | 12:00:00 at subsecond 0 shows "6000 " |
| `DozenalFace.LastTickShowsElevens` | movement/watch_faces/clock/dozenal_face.c:74-95 | 23:59:59 at subsecond 63 is the largest dozenal time, 20735, and shows "EEEE " |
| `DozenalFace.ContextSlot.Setup` | movement/watch_faces/clock/dozenal_face.c:42-46 | an empty slot receives a zeroed state; a filled slot is left unchanged; afterwards the slot is filled |
| `DozenalFace.SetupIdempotent` | movement/watch_faces/clock/dozenal_face.c:42-46 | two setup calls leave the slot as one call does |
| `DozenalFace.Loop` | movement/watch_faces/clock/dozenal_face.c:66-150 | on ACTIVATE and TICK cells 5..8 receive the four digit characters of the current dozenal time in order and cell 9 a blank, cells 0..4 are unchanged; on every other event no cell changes; the face returns true for ACTIVATE, TICK, LIGHT_BUTTON_UP, ALARM_BUTTON_UP, TIMEOUT and LOW_ENERGY_UPDATE and the default handler's result for any other event |

## Left out

- IEEE double arithmetic at lines 84-85: the model divides exact reals. In
  binary64 with round-to-nearest, `4 + 1/(double)6` is 4.166666666666667,
  slightly above 25/6, and the truncated quotient equals
  `(384 r + 6 sub) / 1600` for every remainder `r` below 50 and subsecond
  below 64, so the double path yields the same `dig4` on every input; only the
  bit-level representation of the doubles is not modelled.
- `dig5` and the `fmod` correction at lines 86-89: computed but never displayed.
- Integer widths: `tsec` is `uint32_t` and the digits `uint8_t`; all values
  stay below 86400 and 12, so nothing wraps and the model uses `nat`.
- `dozenal_face_activate` only calls `movement_request_tick_frequency(64)`; the
  model represents the request by the constant `TickFrequency`.
- `dozenal_face_resign` does nothing and is not modelled.
- Loop: the default handler is modelled as a pure function of the event; its
  side effects in the framework (lighting the LED, switching faces, drawing)
  are not, and the postcondition that no display cell changes on delegated
  events holds only for the face's own code.
- `malloc` and `memset`: setup is modelled as the slot becoming
  `Some(DozenalState(0))`; an allocation failure is not modelled.
- The clock fields other than hour, minute and second, the unused `buf` and
  `state` variables, and the commented-out code at lines 70-72 and 96-113.
- `movement/watch_faces/clock/dozenal_face.h` holds only prototypes, the face
  table macro and the unused state struct; there is no behaviour in it.
