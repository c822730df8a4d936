/** The scramble-and-reveal text effect. While it runs, each tick renders a
    frame of the text: spaces stay spaces, positions left of the reveal
    counter show their own character, and every other position shows a
    character picked at random from an alphabet. The counter `iteration`
    grows by a third per tick; here it is kept as the integer `thirds`, with
    `iteration == thirds / 3`. The random numbers are an input:
    `rand(t, i)` in [0, 1) is the draw for position `i` on tick `t`. */
module Decrypted {

  /** The component's default alphabet. */
  const DefaultCharacters: string := "ABCDEFGHIJKLMNOPQRSTUVWXYZ1234567890!@#$%^&*()_+"

  /** Every draw of the random source lies in [0, 1). */
  ghost predicate UnitDraws(rand: (nat, nat) -> real)
  {
    forall t, i :: 0.0 <= rand(t, i) < 1.0
  }

  /** `characters[Math.floor(r * characters.length)]` as it ends up in the
      joined frame: one character, or nothing when the index falls outside
      the alphabet (an undefined element joins as the empty string). */
  function Pick(characters: string, r: real): (s: string)
    ensures |s| <= 1
    ensures 0.0 <= r < 1.0 && |characters| > 0 ==> |s| == 1 && s[0] in characters
  {
    var len := |characters| as real;
    var j := (r * len).Floor;
    assert 0.0 <= r < 1.0 && |characters| > 0 ==> 0 <= j < |characters| by {
      if 0.0 <= r < 1.0 && |characters| > 0 {
        ScaledIndexInRange(r, |characters|);
      }
    }
    if 0 <= j < |characters| then [characters[j]] else ""
  }

  /** `Math.floor(r * n)` is an index below `n` for a draw `r` in [0, 1). */
  lemma ScaledIndexInRange(r: real, n: nat)
    requires 0.0 <= r < 1.0 && n > 0
    ensures 0 <= (r * n as real).Floor < n
  {
    var len := n as real;
    var x := r * len;
    assert x >= 0.0 by { assert len * r >= len * 0.0; }
    assert len - x == (1.0 - r) * len;
    assert (1.0 - r) * len > 0.0;
    assert x.Floor as real <= x < len;
  }

  /** Position `index` is revealed while `index < iteration`, where
      `iteration == thirds / 3`. */
  function Revealed(index: nat, thirds: nat): (b: bool)
    ensures b <==> (index as real) < (thirds as real) / 3.0
  {
    3 * index < thirds
  }

  /** What position `i` contributes to the frame of tick `t`. */
  function Glyph(text: string, characters: string, t: nat, rand: (nat, nat) -> real, i: nat): (s: string)
    requires i < |text|
    ensures |s| <= 1
  {
    if text[i] == ' ' then " "
    else if Revealed(i, t) then [text[i]]
    else Pick(characters, rand(t, i))
  }

  /** The glyphs of positions `i` onwards, joined. */
  function FrameFrom(text: string, characters: string, t: nat, rand: (nat, nat) -> real, i: nat): (s: string)
    requires i <= |text|
    ensures |s| <= |text| - i
    decreases |text| - i
  {
    if i == |text| then ""
    else Glyph(text, characters, t, rand, i) + FrameFrom(text, characters, t, rand, i + 1)
  }

  /** The frame rendered on tick `t`, with `iteration == t / 3`. */
  function Frame(text: string, characters: string, t: nat, rand: (nat, nat) -> real): (s: string)
    ensures |s| <= |text|
  {
    FrameFrom(text, characters, t, rand, 0)
  }

  /** With a non-empty alphabet and draws in [0, 1), every glyph is one
      character, so a frame lines up with the text position by position. */
  lemma {:induction false} FrameFromShape(text: string, characters: string, t: nat, rand: (nat, nat) -> real, i: nat)
    requires |characters| > 0 && UnitDraws(rand) && i <= |text|
    ensures |FrameFrom(text, characters, t, rand, i)| == |text| - i
    ensures forall j :: i <= j < |text| ==>
              |Glyph(text, characters, t, rand, j)| == 1 &&
              FrameFrom(text, characters, t, rand, i)[j - i] == Glyph(text, characters, t, rand, j)[0]
    decreases |text| - i
  {
    if i < |text| {
      FrameFromShape(text, characters, t, rand, i + 1);
      forall j | i <= j < |text|
        ensures |Glyph(text, characters, t, rand, j)| == 1
      {
        assert 0.0 <= rand(t, j) < 1.0;
      }
    }
  }

  /** A frame keeps the text's length and spaces, shows the text at every
      revealed position and an alphabet character at every other one. */
  lemma FrameShape(text: string, characters: string, t: nat, rand: (nat, nat) -> real)
    requires |characters| > 0 && UnitDraws(rand)
    ensures |Frame(text, characters, t, rand)| == |text|
    ensures forall j :: 0 <= j < |text| && text[j] == ' ' ==> Frame(text, characters, t, rand)[j] == ' '
    ensures forall j :: 0 <= j < |text| && text[j] != ' ' && Revealed(j, t) ==>
              Frame(text, characters, t, rand)[j] == text[j]
    ensures forall j :: 0 <= j < |text| && text[j] != ' ' && !Revealed(j, t) ==>
              Frame(text, characters, t, rand)[j] in characters &&
              [Frame(text, characters, t, rand)[j]] == Pick(characters, rand(t, j))
  {
    FrameFromShape(text, characters, t, rand, 0);
    var f := Frame(text, characters, t, rand);
    assert f == FrameFrom(text, characters, t, rand, 0);
    forall j | 0 <= j < |text|
      ensures text[j] == ' ' ==> f[j] == ' '
      ensures text[j] != ' ' && Revealed(j, t) ==> f[j] == text[j]
      ensures text[j] != ' ' && !Revealed(j, t) ==> f[j] in characters && [f[j]] == Pick(characters, rand(t, j))
    {
      assert 0.0 <= rand(t, j) < 1.0;
      assert f[j] == Glyph(text, characters, t, rand, j)[0];
    }
  }

  /** Once every position is revealed, whatever the alphabet and draws. */
  lemma {:induction false} FullyRevealedFrom(text: string, characters: string, t: nat, rand: (nat, nat) -> real, i: nat)
    requires t >= 3 * |text| && i <= |text|
    ensures FrameFrom(text, characters, t, rand, i) == text[i..]
    decreases |text| - i
  {
    if i < |text| {
      FullyRevealedFrom(text, characters, t, rand, i + 1);
      assert text[i..] == [text[i]] + text[i + 1..];
    }
  }

  /** A frame rendered with `iteration >= text.length` is the text itself. */
  lemma FullyRevealed(text: string, characters: string, t: nat, rand: (nat, nat) -> real)
    requires t >= 3 * |text|
    ensures Frame(text, characters, t, rand) == text
  {
    FullyRevealedFrom(text, characters, t, rand, 0);
  }

  /** A position revealed on some tick is revealed on every later tick,
      whatever the later draws are. */
  lemma RevealGrows(text: string, characters: string, t1: nat, t2: nat, rand: (nat, nat) -> real, j: nat)
    requires |characters| > 0 && UnitDraws(rand)
    requires t1 <= t2 && j < |text| && text[j] != ' ' && Revealed(j, t1)
    ensures |Frame(text, characters, t1, rand)| == |Frame(text, characters, t2, rand)| == |text|
    ensures Frame(text, characters, t1, rand)[j] == text[j]
    ensures Frame(text, characters, t2, rand)[j] == text[j]
  {
    FrameShape(text, characters, t1, rand);
    FrameShape(text, characters, t2, rand);
  }

  /** With the component's default alphabet every frame keeps the text's
      length. */
  lemma DefaultAlphabetKeepsLength(text: string, t: nat, rand: (nat, nat) -> real)
    requires UnitDraws(rand)
    ensures |Frame(text, DefaultCharacters, t, rand)| == |text|
  {
    FrameShape(text, DefaultCharacters, t, rand);
  }

  /** One mounted text effect: its text and alphabet, and the text on display. */
  class DecryptedText {
    const text: string
    const characters: string
    var display: string

    /** Before any scramble the display is the plain text. */
    constructor (text: string, characters: string)
      ensures this.text == text && this.characters == characters
      ensures display == text
    {
      this.text := text;
      this.characters := characters;
      display := text;
    }

    /** One run of the interval: renders a frame per tick and stops after
        the first frame rendered with `iteration >= text.length`, which is
        frame number `3 * |text|`, counting from zero. Returns every frame
        shown; the display ends on the plain text. */
    method Scramble(rand: (nat, nat) -> real) returns (frames: seq<string>)
      modifies this
      ensures |frames| == 3 * |text| + 1
      ensures forall t :: 0 <= t < |frames| ==> frames[t] == Frame(text, characters, t, rand)
      ensures frames[|frames| - 1] == text
      ensures display == text
    {
      var thirds: nat := 0;
      var running := true;
      frames := [];
      while running
        invariant |frames| == thirds
        invariant running ==> thirds <= 3 * |text|
        invariant !running ==> thirds == 3 * |text| + 1
        invariant forall t :: 0 <= t < |frames| ==> frames[t] == Frame(text, characters, t, rand)
        invariant thirds > 0 ==> display == frames[thirds - 1]
        decreases 3 * |text| + 1 - thirds + (if running then 1 else 0)
      {
        display := Frame(text, characters, thirds, rand);
        frames := frames + [display];
        if thirds >= 3 * |text| {
          running := false;
        }
        thirds := thirds + 1;
      }
      FullyRevealed(text, characters, 3 * |text|, rand);
    }
  }
}
