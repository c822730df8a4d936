/** The logic of one project panel of the gallery: the image list of the
    slider, the carousel index (changed by the auto-advance timer and by the
    two navigation buttons), which controls are shown, and the two labels
    (the zero-padded panel number and the two-digit year). */
module ProjectPanel {

  datatype Option<T> = None | Some(value: T)

  /** The fields of a project record that the panel's logic reads; the
      optional `images` array of the record is `Option<seq<string>>`. */
  datatype Project = Project(image: string, images: Option<seq<string>>, year: string)

  /** What the panel shows for a given carousel index. */
  datatype PanelView = PanelView(
    image: string,         // the slide on display
    timerArmed: bool,      // an auto-advance timeout is scheduled
    navShown: bool,        // the previous/next buttons are rendered
    progressShown: bool,   // the progress bar under the year is rendered
    number: string,        // the big panel number, e.g. "01"
    yearLabel: string)     // the two-digit year after the apostrophe

  /** The slider's image list: the project's `images` when present and
      non-empty, the single main image otherwise. */
  function ProjectImages(p: Project): (r: seq<string>)
    ensures |r| >= 1
    ensures p.images.Some? && |p.images.value| > 0 ==> r == p.images.value
    ensures p.images.None? || |p.images.value| == 0 ==> r == [p.image]
    ensures forall k :: 0 <= k < |r| ==> r[k] == p.image || (p.images.Some? && r[k] in p.images.value)
  {
    if p.images.Some? && |p.images.value| > 0 then p.images.value else [p.image]
  }

  /** The "next" updater, shared by the button and the auto-advance timer. */
  function NextIndex(i: nat, n: nat): (r: nat)
    requires n > 0
    ensures r < n
    ensures i < n ==> r == if i == n - 1 then 0 else i + 1
  {
    // both operands are non-negative, so JavaScript's truncating `%` and
    // Dafny's Euclidean `%` agree
    (i + 1) % n
  }

  /** The "previous" updater of the left button. */
  function PrevIndex(i: nat, n: nat): (r: nat)
    requires n > 0
    ensures r < n
    ensures i < n ==> r == if i == 0 then n - 1 else i - 1
  {
    (i - 1 + n) % n
  }

  /** Next and previous undo each other on every valid index. */
  lemma NextPrevInverse(i: nat, n: nat)
    requires i < n
    ensures PrevIndex(NextIndex(i, n), n) == i
    ensures NextIndex(PrevIndex(i, n), n) == i
  {
  }

  /** The index after `k` auto-advance steps from `i`. */
  function Advance(i: nat, n: nat, k: nat): (r: nat)
    requires n > 0
    ensures i < n ==> r < n
    decreases k
  {
    if k == 0 then i else NextIndex(Advance(i, n, k - 1), n)
  }

  /** Advancing by `k` steps from a valid index `i`, for `i + k` below
      two rounds, lands on `i + k` with one wrap-around past the end. */
  lemma {:induction false} AdvanceShifts(i: nat, n: nat, k: nat)
    requires i < n && i + k < 2 * n
    ensures Advance(i, n, k) == if i + k < n then i + k else i + k - n
    decreases k
  {
    if k > 0 {
      AdvanceShifts(i, n, k - 1);
    }
  }

  /** Advancing `a + b` steps is advancing `a` steps, then `b` more. */
  lemma {:induction false} AdvanceAdd(i: nat, n: nat, a: nat, b: nat)
    requires n > 0
    ensures Advance(i, n, a + b) == Advance(Advance(i, n, a), n, b)
    decreases b
  {
    if b > 0 {
      AdvanceAdd(i, n, a, b - 1);
    }
  }

  /** Any whole number of cycles of `n` auto-advance steps (one cycle in
      particular) returns to the starting slide. */
  lemma {:induction false} AdvanceFullCycles(i: nat, n: nat, m: nat)
    requires i < n
    ensures Advance(i, n, m * n) == i
    decreases m
  {
    if m > 0 {
      var c := (m - 1) * n;
      assert c + n == m * n;
      AdvanceAdd(i, n, c, n);
      AdvanceFullCycles(i, n, m - 1);
      AdvanceShifts(i, n, n);
    }
  }

  predicate IsDigit(c: char) { '0' <= c <= '9' }

  predicate AllDigits(s: string) { forall k :: 0 <= k < |s| ==> IsDigit(s[k]) }

  function DigitChar(d: nat): (c: char)
    requires d < 10
    ensures IsDigit(c) && c as int - '0' as int == d
  {
    (d + '0' as int) as char
  }

  function DigitValue(c: char): (v: nat)
    requires IsDigit(c)
  {
    c as int - '0' as int
  }

  /** `String(n)` for a non-negative integer: its decimal digits, most
      significant first, without leading zeros. */
  function DecimalString(n: nat): (s: string)
    ensures |s| >= 1 && AllDigits(s)
    ensures n > 0 ==> s[0] != '0'
    ensures n < 10 <==> |s| == 1
    decreases n
  {
    if n < 10 then [DigitChar(n)] else DecimalString(n / 10) + [DigitChar(n % 10)]
  }

  /** The number a string of decimal digits denotes. */
  function DecimalValue(s: string): (v: nat)
    requires AllDigits(s)
    decreases |s|
  {
    if s == [] then 0 else DecimalValue(s[..|s| - 1]) * 10 + DigitValue(s[|s| - 1])
  }

  lemma {:induction false} DecimalRoundTrip(n: nat)
    ensures DecimalValue(DecimalString(n)) == n
    decreases n
  {
    if n >= 10 {
      var s := DecimalString(n);
      assert s[..|s| - 1] == DecimalString(n / 10);
      DecimalRoundTrip(n / 10);
    }
  }

  /** JavaScript's `padStart` with a one-character fill. */
  function PadStart(s: string, len: nat, fill: char): (r: string)
    ensures |r| == if |s| >= len then |s| else len
    ensures r[|r| - |s|..] == s
    ensures forall k :: 0 <= k < |r| - |s| ==> r[k] == fill
  {
    if |s| >= len then s else seq(len - |s|, _ => fill) + s
  }

  /** Leading zeros do not change the value of a digit string. */
  lemma {:induction false} LeadingZeros(z: nat, s: string)
    requires AllDigits(s)
    ensures AllDigits(seq(z, _ => '0') + s)
    ensures DecimalValue(seq(z, _ => '0') + s) == DecimalValue(s)
    decreases |s|
  {
    var t := seq(z, _ => '0') + s;
    assert AllDigits(t) by {
      forall k | 0 <= k < |t| ensures IsDigit(t[k]) {
        if k >= z { assert t[k] == s[k - z]; }
      }
    }
    if s == [] {
      ZerosValue(z);
      assert t == seq(z, _ => '0');
    } else {
      assert t[..|t| - 1] == seq(z, _ => '0') + s[..|s| - 1];
      LeadingZeros(z, s[..|s| - 1]);
    }
  }

  lemma {:induction false} ZerosValue(z: nat)
    ensures AllDigits(seq(z, _ => '0'))
    ensures DecimalValue(seq(z, _ => '0')) == 0
    decreases z
  {
    if z > 0 {
      assert seq(z, _ => '0')[..z - 1] == seq(z - 1, _ => '0');
      ZerosValue(z - 1);
    }
  }

  /** The panel number `String(index + 1).padStart(2, '0')`: at least two
      decimal digits that denote `index + 1`, with one leading zero exactly
      for the first nine panels. */
  function PanelNumber(index: nat): (r: string)
    ensures |r| >= 2 && AllDigits(r)
    ensures DecimalValue(r) == index + 1
    ensures index < 9 ==> r == ['0', DigitChar(index + 1)]
    ensures index >= 9 ==> r == DecimalString(index + 1) && r[0] != '0'
  {
    var s := DecimalString(index + 1);
    DecimalRoundTrip(index + 1);
    var r := PadStart(s, 2, '0');
    if |s| < 2 then
      assert r == seq(1, _ => '0') + s;
      LeadingZeros(1, s);
      r
    else
      r
  }

  /** `year.slice(-2)`: the last two characters, or all of a shorter string. */
  function YearLabel(year: string): (r: string)
    ensures |r| == if |year| < 2 then |year| else 2
    ensures r == year[|year| - |r|..]
  {
    var start := if |year| - 2 < 0 then 0 else |year| - 2;
    year[start..]
  }

  /** What the panel renders at carousel position `current`. */
  function Render(p: Project, index: nat, current: nat): (v: PanelView)
    requires current < |ProjectImages(p)|
    ensures v.image == ProjectImages(p)[current] && v.image in ProjectImages(p)
    ensures v.timerArmed <==> |ProjectImages(p)| > 1
    ensures v.navShown <==> |ProjectImages(p)| > 1
    ensures v.progressShown <==> |ProjectImages(p)| > 1
    ensures AllDigits(v.number) && DecimalValue(v.number) == index + 1 && |v.number| >= 2
    ensures |v.yearLabel| == (if |p.year| < 2 then |p.year| else 2)
    ensures v.yearLabel == p.year[|p.year| - |v.yearLabel|..]
    ensures v.number == PanelNumber(index) && v.yearLabel == YearLabel(p.year)
  {
    var images := ProjectImages(p);
    var multiple := |images| > 1;
    PanelView(images[current], multiple, multiple, multiple, PanelNumber(index), YearLabel(p.year))
  }

  /** The slider state of one mounted panel: its image list and the index of
      the slide on display. */
  class Carousel {
    const images: seq<string>
    var current: nat

    ghost predicate Valid()
      reads this
    {
      |images| >= 1 && current < |images|
    }

    /** Mounting a panel starts at the first slide. */
    constructor (p: Project)
      ensures Valid()
      ensures images == ProjectImages(p) && current == 0
    {
      images := ProjectImages(p);
      current := 0;
    }

    function Shown(): (s: string)
      requires Valid()
      reads this
      ensures s in images
    {
      images[current]
    }

    /** The right button. */
    method Next()
      requires Valid()
      modifies this
      ensures Valid()
      ensures current == NextIndex(old(current), |images|)
    {
      current := NextIndex(current, |images|);
    }

    /** The left button. */
    method Prev()
      requires Valid()
      modifies this
      ensures Valid()
      ensures current == PrevIndex(old(current), |images|)
    {
      current := PrevIndex(current, |images|);
    }

    /** The five-second timeout elapsing: it advances only when a timer was
        scheduled, which happens only for more than one image. */
    method TimerElapsed()
      requires Valid()
      modifies this
      ensures Valid()
      ensures |images| > 1 ==> current == NextIndex(old(current), |images|)
      ensures |images| <= 1 ==> current == old(current)
    {
      if |images| <= 1 {
        return;
      }
      current := NextIndex(current, |images|);
    }
  }
}
