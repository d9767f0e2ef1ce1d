/** The string operations the bridge relies on. */
module Strings {

  function Lower(c: char): char {
    if 'A' <= c <= 'Z' then c - 'A' + 'a' else c
  }

  function ToLower(s: string): (t: string)
    ensures |t| == |s| && forall i :: 0 <= i < |s| ==> t[i] == Lower(s[i])
  {
    seq(|s|, i requires 0 <= i < |s| => Lower(s[i]))
  }

  /** Unicode white space. */
  predicate White(c: char) {
    || '\U{9}' <= c <= '\U{D}' || c == ' ' || c == '\U{85}' || c == '\U{A0}' || c == '\U{1680}'
    || '\U{2000}' <= c <= '\U{200A}' || c == '\U{2028}' || c == '\U{2029}' || c == '\U{202F}'
    || c == '\U{205F}' || c == '\U{3000}'
  }

  function DropFront(s: string, drop: char -> bool): string {
    if s == [] || !drop(s[0]) then s else DropFront(s[1..], drop)
  }

  function DropBack(s: string, drop: char -> bool): string {
    if s == [] || !drop(s[|s| - 1]) then s else DropBack(s[..|s| - 1], drop)
  }

  function Trim(s: string): string {
    DropBack(DropFront(s, White), White)
  }

  predicate At(s: string, w: string, i: nat) {
    i + |w| <= |s| && s[i..i + |w|] == w
  }

  predicate Contains(s: string, w: string) {
    exists i :: 0 <= i <= |s| && At(s, w, i)
  }

  // ---------------------------------------------------------------- what they mean

  /** Two characters agree up to the case of ASCII letters: by their codes they are equal, or 32
      apart in the two alphabets. */
  predicate SameLetter(c: char, d: char) {
    || c == d
    || (65 <= c as int <= 90 && d as int == c as int + 32)
    || (65 <= d as int <= 90 && c as int == d as int + 32)
  }

  /** `s` is the word `w`, whatever the case of its letters. */
  predicate SameWord(s: string, w: string) {
    |s| == |w| && forall i :: 0 <= i < |w| ==> SameLetter(s[i], w[i])
  }

  /** Lowering forgets the case of ASCII letters and nothing else, and yields no capital. */
  lemma LowerIff(c: char, d: char)
    ensures Lower(c) == Lower(d) <==> SameLetter(c, d)
    ensures SameLetter(Lower(c), c) && !(65 <= Lower(c) as int <= 90)
  {
  }

  lemma ToLowerIff(s: string, w: string)
    requires forall i :: 0 <= i < |w| ==> !(65 <= w[i] as int <= 90)
    ensures ToLower(s) == w <==> SameWord(s, w)
  {
    forall i | 0 <= i < |w| && i < |s| ensures Lower(s[i]) == w[i] <==> SameLetter(s[i], w[i]) {
      LowerIff(s[i], w[i]);
      assert Lower(w[i]) == w[i];
    }
  }

  /** White space is what Unicode gives that property: 25 code points. */
  lemma WhiteIff(c: char)
    ensures White(c) <==> c as int in {9, 10, 11, 12, 13, 32, 133, 160, 5760, 8192, 8193, 8194, 8195, 8196, 8197, 8198, 8199,
                                       8200, 8201, 8202, 8232, 8233, 8239, 8287, 12288}
  {
  }

  predicate All(s: string, drop: char -> bool) { forall i :: 0 <= i < |s| ==> drop(s[i]) }

  lemma {:induction false} DropFrontSplits(s: string, drop: char -> bool) returns (front: string)
    ensures s == front + DropFront(s, drop) && All(front, drop)
    ensures DropFront(s, drop) != "" ==> !drop(DropFront(s, drop)[0])
  {
    if s == [] || !drop(s[0]) {
      front := "";
    } else {
      var rest := DropFrontSplits(s[1..], drop);
      front := [s[0]] + rest;
    }
  }

  lemma {:induction false} DropBackSplits(s: string, drop: char -> bool) returns (back: string)
    ensures s == DropBack(s, drop) + back && All(back, drop)
    ensures DropBack(s, drop) != "" ==> !drop(DropBack(s, drop)[|DropBack(s, drop)| - 1])
  {
    if s == [] || !drop(s[|s| - 1]) {
      back := "";
    } else {
      var rest := DropBackSplits(s[..|s| - 1], drop);
      back := rest + [s[|s| - 1]];
    }
  }

  /** `t` is `s` less what may be dropped at its ends: it neither begins nor ends with such a
      character, and only such characters are missing. */
  ghost predicate Stripped(s: string, t: string, drop: char -> bool) {
    && (t != "" ==> !drop(t[0]) && !drop(t[|t| - 1]))
    && exists front, back :: All(front, drop) && All(back, drop) && s == front + t + back
  }

  lemma DropBothIsStripped(s: string, drop: char -> bool)
    ensures Stripped(s, DropBack(DropFront(s, drop), drop), drop)
  {
    var m := DropFront(s, drop);
    var t := DropBack(m, drop);
    var front := DropFrontSplits(s, drop);
    var back := DropBackSplits(m, drop);
    assert s == front + t + back;
    if t != "" {
      assert m[0] == t[0];
    }
  }

  /** What is left after stripping is the only such text. */
  lemma StrippedIsUnique(s: string, t: string, u: string, drop: char -> bool)
    requires Stripped(s, t, drop) && Stripped(s, u, drop)
    ensures t == u
  {
    var a, b :| All(a, drop) && All(b, drop) && s == a + t + b;
    var c, d :| All(c, drop) && All(d, drop) && s == c + u + d;
    if t != "" {
      assert s[|a|] == t[0] && s[|a| + |t| - 1] == t[|t| - 1];
      KeptCharacter(s, c, u, d, |a|, drop);
      KeptCharacter(s, c, u, d, |a| + |t| - 1, drop);
    }
    if u != "" {
      assert s[|c|] == u[0] && s[|c| + |u| - 1] == u[|u| - 1];
      KeptCharacter(s, a, t, b, |c|, drop);
      KeptCharacter(s, a, t, b, |c| + |u| - 1, drop);
    }
    if t != "" && u != "" {
      assert t == s[|a|..|a| + |t|] && u == s[|c|..|c| + |u|];
    }
  }

  lemma KeptCharacter(s: string, a: string, t: string, b: string, i: nat, drop: char -> bool)
    requires All(a, drop) && All(b, drop) && s == a + t + b && i < |s| && !drop(s[i])
    ensures t != "" && |a| <= i < |a| + |t|
  {
    CharacterOf(a, t, b, i);
  }

  lemma CharacterOf(a: string, t: string, b: string, i: nat)
    requires i < |a + t + b|
    ensures (a + t + b)[i] == if i < |a| then a[i] else if i < |a| + |t| then t[i - |a|] else b[i - |a| - |t|]
  {
  }

  /** Trimming strips white space: `t` is the trimmed text exactly when it is that. */
  lemma TrimIff(s: string, t: string)
    ensures Trim(s) == t <==> Stripped(s, t, White)
  {
    hide White, Stripped;
    DropBothIsStripped(s, White);
    if Stripped(s, t, White) {
      StrippedIsUnique(s, t, Trim(s), White);
    }
  }

  lemma TrimEmptyIff(s: string)
    ensures Trim(s) == "" <==> All(s, White)
  {
    hide White;
    TrimIff(s, "");
    if All(s, White) {
      assert s == s + "" + "" && All("", White);
    } else if Stripped(s, "", White) {
      StrippedToNothing(s, White);
    }
  }

  lemma StrippedToNothing(s: string, drop: char -> bool)
    requires Stripped(s, "", drop)
    ensures All(s, drop)
  {
    var a, b :| All(a, drop) && All(b, drop) && s == a + "" + b;
    assert forall i :: 0 <= i < |s| ==> s[i] == if i < |a| then a[i] else b[i - |a|];
  }

  /** `w` stands at position `i` of `s`, whatever the case of its letters. */
  predicate WordAt(s: string, w: string, i: int) {
    0 <= i && i + |w| <= |s| && SameWord(s[i..i + |w|], w)
  }

  ghost predicate HoldsWord(s: string, w: string) {
    exists i :: WordAt(s, w, i)
  }

  lemma LowerContainsIff(s: string, w: string)
    requires forall i :: 0 <= i < |w| ==> !(65 <= w[i] as int <= 90)
    ensures Contains(ToLower(s), w) <==> HoldsWord(s, w)
  {
    forall i: nat ensures At(ToLower(s), w, i) <==> WordAt(s, w, i) {
      if i + |w| <= |s| {
        ToLowerIff(s[i..i + |w|], w);
        assert ToLower(s)[i..i + |w|] == ToLower(s[i..i + |w|]);
      }
    }
  }
}
