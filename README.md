# Portfolio site: carousel, loader and decrypted-text logic in Dafny

The portfolio site is a React front end. Nearly all of it is visual wiring
(WebGL, three.js, framer-motion). Three components hold logic that can be
stated exactly, and this project models those three and proves their
properties:

- **Project panel** (`src/components/ProjectPanel.tsx`), module `ProjectPanel`.
  - The slider's image list falls back to the main image.
  - The carousel index is stepped forward by the five-second timer and the
    right button, and backward by the left button, wrapping modulo the list
    length.
  - Timer, buttons and progress bar exist only for more than one image.
  - Two labels: the zero-padded panel number and the two-digit year.
  - The index is React state changed step by step, so it is the field
    `current` of class `Carousel`, whose methods `Next`, `Prev` and
    `TimerElapsed` update it. The updaters, the fallback and the labels are
    functions.
- **Loader** (`src/components/Loader.tsx`), module `Loader`.
  - Every 50 ms a tick moves the displayed percentage toward the real
    loading progress: a fifth of the gap, at least one point, never past 100.
  - The screen finishes once the display is exactly 100.
  - `Tick` is the updater. `Iterate` applies it k times.
    `RunUntilFinished` is the interval, written as a `while` loop that stops
    at 100.
- **Decrypted text** (`src/components/DecryptedText.tsx`), module `Decrypted`.
  - Each tick renders a frame: spaces stay, positions left of the reveal
    counter show their own character, and other positions show a random
    alphabet character.
  - The counter grows by a third per tick, and the run stops after the first
    frame rendered with the counter at least the text length.
  - `Frame` computes one frame. `DecryptedText.Scramble` is the interval
    loop, and it updates the component's `display`.

Modelling choices:

- Loader values are exact `real` numbers, an abstraction of IEEE doubles.
- The real progress is an input `progress: nat -> real`, where
  `progress(j)` is the value tick `j` sees. So termination is proved for any
  behaviour of the real progress.
- The reveal counter `iteration` is the integer `thirds`, with
  `iteration == thirds / 3`. So `index < iteration` is `3 * index < thirds`.
- `Math.random()` is an input `rand(t, i)`: the draw for position `i` on
  tick `t`. Lemmas about scrambled positions require every draw to lie in
  [0, 1).
- The alphabet is indexed by `Floor(r * |characters|)`. An index outside
  the alphabet yields `undefined`, which `join('')` prints as the empty
  string. The model keeps this. So a frame has the text's length only when
  the alphabet is non-empty, as the default alphabet is.
- Code and comment disagree in `Loader.tsx`. The comment at line 21 says the
  display waits when the real progress is behind. The code always advances
  by at least one point. The model follows the code, and `Tick` proves it.

## Model

| member | source | states |
|---|---|---|
| `ProjectPanel.ProjectImages` | src/components/ProjectPanel.tsx:28 | the list is never empty; it is `images` when present and non-empty, else `[image]`; every entry comes from the project |
| `ProjectPanel.NextIndex` | src/components/ProjectPanel.tsx:40 | the result lies in `[0, n)`; on a valid index it is the successor, and `n-1` wraps to 0 |
| `ProjectPanel.PrevIndex` | src/components/ProjectPanel.tsx:45 | the result lies in `[0, n)`; on a valid index it is the predecessor, and 0 wraps to `n-1` |
| `ProjectPanel.NextPrevInverse` | src/components/ProjectPanel.tsx:38-46 | next then previous, and previous then next, return to the same valid index |
| `ProjectPanel.Advance` | src/components/ProjectPanel.tsx:30-36 | repeated timer advances keep a valid index valid |
| `ProjectPanel.AdvanceShifts` | src/components/ProjectPanel.tsx:33 | `k` advances from `i` land on `i + k`, with one wrap past the end when `i + k` reaches `n` |
| `ProjectPanel.AdvanceAdd` | src/components/ProjectPanel.tsx:30-36 | `a + b` advances equal `a` advances followed by `b` advances |
| `ProjectPanel.AdvanceFullCycles` | src/components/ProjectPanel.tsx:30-36 | `m * n` auto-advance steps, `n` in particular, return to the starting slide |
| `ProjectPanel.DecimalString` | src/components/ProjectPanel.tsx:144 | `String(n)`: a non-empty string of decimal digits, with no leading zero when `n > 0`, and one digit exactly when `n < 10` |
| `ProjectPanel.DecimalRoundTrip` | src/components/ProjectPanel.tsx:144 | reading back the decimal string of `n` gives `n` |
| `ProjectPanel.PadStart` | src/components/ProjectPanel.tsx:144 | `padStart`: the length is the larger of the target and the input; the input is the suffix, and every added character is the fill |
| `ProjectPanel.LeadingZeros` | src/components/ProjectPanel.tsx:144 | zeros put in front of a digit string leave its value unchanged |
| `ProjectPanel.PanelNumber` | src/components/ProjectPanel.tsx:144 | the label has at least two digits and denotes `index + 1`; it is `'0'` and one digit for the first nine panels (index 0 gives "01"), else the plain decimal |
| `ProjectPanel.YearLabel` | src/components/ProjectPanel.tsx:150 | `slice(-2)`: the last two characters of the year, or the whole year when shorter than two |
| `ProjectPanel.Render` | src/components/ProjectPanel.tsx:28-162 | the shown image is entry `current` of the list; timer, nav buttons and progress bar exist exactly when there is more than one image; the number is `PanelNumber(index)` (denoting `index + 1`) and the year label is `YearLabel(year)` |
| `ProjectPanel.Carousel.constructor` | src/components/ProjectPanel.tsx:25-28 | a mounted panel starts at slide 0 of `ProjectImages(project)` |
| `ProjectPanel.Carousel.Shown` | src/components/ProjectPanel.tsx:109 | the slide on display is one of the panel's images |
| `ProjectPanel.Carousel.Next` | src/components/ProjectPanel.tsx:38-41 | the index becomes `NextIndex` of the old one and stays valid |
| `ProjectPanel.Carousel.Prev` | src/components/ProjectPanel.tsx:43-46 | the index becomes `PrevIndex` of the old one and stays valid |
| `ProjectPanel.Carousel.TimerElapsed` | src/components/ProjectPanel.tsx:30-36 | with more than one image the timer advances the index; with one image nothing changes, since no timer is scheduled |
| `Loader.Tick` | src/components/Loader.tsx:16-27 | the result is at most 100; it is exactly 100 from any `prev >= 100`; below 100 it gains at least one point (or reaches 100) even when the real progress is behind; it is `min(100, prev + 1)` when the gap is at most 5; it is `prev + gap/5` and never passes the real progress when the gap is at least 5 and the progress is at most 100 |
| `Loader.Iterate` | src/components/Loader.tsx:15-28 | after at least one tick the display is at most 100 |
| `Loader.IterateBounds` | src/components/Loader.tsx:24-26 | from a start of at most 100, the display never drops below the start, never exceeds 100, and after `k` ticks is at least `min(100, start + k)` |
| `Loader.ReachesFull` | src/components/Loader.tsx:24-34 | for any real progress, the display is exactly 100 after `ceil(100 - start)` ticks |
| `Loader.StaysFull` | src/components/Loader.tsx:17-19 | once the display is 100 it stays 100 on every later tick |
| `Loader.Percent` | src/components/Loader.tsx:56 | the shown number is `floor(display)`; it lies in `[0, 100]` for a display in that range and is 100 at 100 |
| `Loader.RunUntilFinished` | src/components/Loader.tsx:15-34 | the interval stops with the display exactly 100, the value the finish check waits for; no earlier tick reached 100; it takes at most `ceil(100 - start)` ticks from a start of at most 100, and one tick from above 100 |
| `Decrypted.Pick` | src/components/DecryptedText.tsx:42 | at most one character; exactly one character of the alphabet for a draw in [0, 1) and a non-empty alphabet |
| `Decrypted.ScaledIndexInRange` | src/components/DecryptedText.tsx:42 | `Math.floor(r * n)` is a valid index below `n` for a draw `r` in [0, 1) |
| `Decrypted.Revealed` | src/components/DecryptedText.tsx:38 | `Revealed(i, t)` holds exactly when `i < t/3`, that is when `index < iteration` on tick `t` |
| `Decrypted.Glyph` | src/components/DecryptedText.tsx:35-43 | each position contributes at most one character |
| `Decrypted.FrameFrom` | src/components/DecryptedText.tsx:33-44 | the joined glyphs from position `i` on are no longer than the rest of the text |
| `Decrypted.Frame` | src/components/DecryptedText.tsx:33-44 | a frame is never longer than the text |
| `Decrypted.FrameFromShape` | src/components/DecryptedText.tsx:33-44 | with a non-empty alphabet and draws in [0, 1), every glyph is one character and the frame lines up with the text position by position |
| `Decrypted.FrameShape` | src/components/DecryptedText.tsx:33-44 | a frame has the text's length; spaces stay spaces; non-space positions with `index < iteration` show the text's character; every other position shows the alphabet character the draw picks |
| `Decrypted.FullyRevealedFrom` | src/components/DecryptedText.tsx:38-40 | once `iteration >= text.length`, the glyphs from any position on spell out the rest of the text |
| `Decrypted.FullyRevealed` | src/components/DecryptedText.tsx:38-47 | a frame rendered with `iteration >= text.length` equals the text, whatever the alphabet and draws |
| `Decrypted.RevealGrows` | src/components/DecryptedText.tsx:38-52 | a non-space position revealed on one tick shows its own character on every later tick |
| `Decrypted.DefaultAlphabetKeepsLength` | src/components/DecryptedText.tsx:16 | with the default alphabet and draws in [0, 1), every frame has the text's length |
| `Decrypted.DecryptedText.constructor` | src/components/DecryptedText.tsx:19 | before any scramble the display equals the text |
| `Decrypted.DecryptedText.Scramble` | src/components/DecryptedText.tsx:27-52 | the run renders `3 * text.length + 1` frames; frame `t` is `Frame` at `iteration = t/3`; the last frame and the final display equal the text |

## Left out

- The repository's particle and parallax driver (plexus points and edges, scroll-driven colour) is not part of this model: none of the modelled files contains it.
- The other components: WebGL flow-map hover, cursor follower and its variant table, three.js scenes, GLTF loading, scroll-reveal animations, asset globbing, routing and layout. They are visual plumbing with no stateable logic.
- Timers and React: the 5000 ms, 50 ms and `speed` delays, timer clearing on unmount, re-renders and stale closures. Ticks are explicit loop iterations or method calls.
- The 500 ms delay before `onFinished` is not modelled. `RunUntilFinished` stops when the display first reaches 100, the moment that callback is scheduled.
- The `isScrambling` guard against starting a second scramble, and the hover trigger, are not modelled. `DecryptedText.Scramble` models one run.
- `Math.random` is not modelled as randomness. It is the input `rand`.
- Floating point is not modelled. Repeated `+= 1/3` in JavaScript can drift from exact thirds, and the loader's doubles can round. The model uses exact thirds and exact reals.
- `String(n)` switches to exponent notation from 10^21 on. `DecimalString` always gives plain digits; panel indices never come close.
- Changing a panel's image list while it stays mounted is not modelled: the index could then run past a smaller list. `Carousel.images` is fixed at construction.
- Pure presentation is not modelled: the image `alt` text, the progress-bar width style and all animation variants.
- Strings are modelled as sequences of Unicode characters, not UTF-16 code units. JavaScript's `split('')`, indexing, `length` and `slice(-2)` count code units. The two agree for text in the Basic Multilingual Plane (the default alphabet is ASCII). They differ for characters above U+FFFF: JavaScript counts such a character twice and can show half of it in a frame, and the model cannot.
- DecryptedText.Scramble: each frame is taken as computed at the moment its tick fires, with the counter as it stands before that tick's `iteration += 1/3`. The updater passed to `setDisplayText` reads the mutable counter. If React runs that updater later, after the increment, every frame reveals one third-step further than modelled. The frame count and the final text are the same either way.
