/** The scrubber every log line and error body passes through. */
module Redact {
  import opened Strings
  import opened Wrappers

  /** The secret-bearing prefixes, in the order they are tried. The first is followed by a bearer
      credential, the others by the value of a parameter. */
  function Key(k: nat): string
    requires k < KEY_COUNT
  {
    ["bearer ", "token=", "access_token=", "api_key=", "apikey=", "secret=", "password="][k]
  }

  const KEY_COUNT := 7

  const STARS := "***"

  /** The characters that end a secret run after key `k`. */
  predicate Ends(k: nat, c: char) {
    White(c) || (k != 0 && (c == '&' || c == '"' || c == '\'' || c == ',' || c == ')' || c == '}'))
  }

  /** `s` begins with the lower-case word `w`, whatever the case of its letters. */
  predicate StartsWith(s: string, w: string) {
    |w| <= |s| && forall i :: 0 <= i < |w| ==> Lower(s[i]) == w[i]
  }

  /** The first key, from the `k`th on, that `s` begins with. */
  function KeyFrom(s: string, k: nat): (r: Option<nat>)
    requires k <= KEY_COUNT
    ensures r.Some? ==> k <= r.value < KEY_COUNT && StartsWith(s, Key(r.value))
    ensures r.None? ==> forall j :: k <= j < KEY_COUNT ==> !StartsWith(s, Key(j))
    decreases KEY_COUNT - k
  {
    if k == KEY_COUNT then None
    else if StartsWith(s, Key(k)) then Some(k)
    else KeyFrom(s, k + 1)
  }

  function KeyAt(s: string): Option<nat> { KeyFrom(s, 0) }

  /** Length of the longest prefix of `s` free of characters that end a run after key `k`. */
  function RunLength(k: nat, s: string): (n: nat)
    ensures n <= |s|
    ensures forall i :: 0 <= i < n ==> !Ends(k, s[i])
    ensures n < |s| ==> Ends(k, s[n])
  {
    if s == [] || Ends(k, s[0]) then 0 else 1 + RunLength(k, s[1..])
  }

  function Mask(n: nat): string { if n > 0 then STARS else "" }

  /** For a text that begins with the `k`th key: the key itself, the length of the run behind it,
      and what follows the run. */
  function KeyOf(s: string, k: nat): string
    requires KeyAt(s) == Some(k)
  {
    s[..|Key(k)|]
  }

  function RunOf(s: string, k: nat): nat
    requires KeyAt(s) == Some(k)
  {
    RunLength(k, s[|Key(k)|..])
  }

  function RestOf(s: string, k: nat): (rest: string)
    requires KeyAt(s) == Some(k)
    ensures |rest| < |s|
  {
    KeyLength(k);
    s[|Key(k)| + RunOf(s, k)..]
  }

  function Redacted(s: string): string
    decreases |s|
  {
    if s == [] then []
    else
      match KeyAt(s)
      case Some(k) => KeyOf(s, k) + Mask(RunOf(s, k)) + Redacted(RestOf(s, k))
      case None => [s[0]] + Redacted(s[1..])
  }

  lemma KeyLength(k: nat)
    requires k < KEY_COUNT
    ensures |Key(k)| >= 6
  {
  }

  // ---------------------------------------------------------------- the scan as it runs

  method SkipSecret(msg: string, start: nat, k: nat) returns (next: nat, mask: string)
    requires start <= |msg|
    ensures next == start + RunLength(k, msg[start..]) <= |msg|
    ensures mask == Mask(RunLength(k, msg[start..]))
  {
    next := start;
    while next < |msg| && !Ends(k, msg[next])
      invariant start <= next <= |msg|
      invariant RunLength(k, msg[start..]) == next - start + RunLength(k, msg[next..])
    {
      assert msg[next..][1..] == msg[next + 1..];
      next := next + 1;
    }
    mask := if next > start then STARS else "";
  }

  method FindKey(msg: string, lower: string, i: nat) returns (found: Option<nat>)
    requires i <= |msg| && lower == ToLower(msg)
    ensures found == KeyAt(msg[i..])
  {
    hide Key;
    var k := 0;
    while k < KEY_COUNT
      invariant 0 <= k <= KEY_COUNT
      invariant KeyAt(msg[i..]) == KeyFrom(msg[i..], k)
    {
      if |Key(k)| <= |lower| - i && lower[i..i + |Key(k)|] == Key(k) {
        LowerPrefix(msg, i, Key(k));
        return Some(k);
      }
      LowerPrefix(msg, i, Key(k));
      k := k + 1;
    }
    return None;
  }

  lemma LowerPrefix(msg: string, i: nat, w: string)
    requires i <= |msg|
    ensures StartsWith(msg[i..], w) <==> i + |w| <= |msg| && ToLower(msg)[i..i + |w|] == w
  {
    if i + |w| <= |msg| {
      var part := ToLower(msg)[i..i + |w|];
      assert forall j :: 0 <= j < |w| ==> part[j] == Lower(msg[i..][j]);
    }
  }

  /** One step of the scan at `i`: what is emitted and where it goes on. */
  method ScanStep(msg: string, lower: string, i: nat) returns (next: nat, piece: string)
    requires i < |msg| && lower == ToLower(msg)
    ensures i < next <= |msg|
    ensures Redacted(msg[i..]) == piece + Redacted(msg[next..])
  {
    hide Key, Redacted, RunLength, KeyFrom, StartsWith, Ends, Mask;
    var found := FindKey(msg, lower, i);
    match found {
      case Some(k) =>
        KeyNotEmpty(msg[i..], k);
        RedactKeyedAt(msg, i, k);
        var head := msg[i..i + |Key(k)|];
        var mask;
        next, mask := SkipSecret(msg, i + |Key(k)|, k);
        piece := head + mask;
      case None =>
        RedactCopied(msg[i..]);
        assert msg[i..][1..] == msg[i + 1..];
        next, piece := i + 1, [msg[i]];
    }
  }

  method Run(msg: string) returns (out: string)
    ensures out == Redacted(msg)
  {
    hide Redacted;
    var lower := ToLower(msg);
    out := "";
    var i := 0;
    NothingRedacted();
    assert msg[0..] == msg;
    while i < |msg|
      invariant 0 <= i <= |msg|
      invariant Redacted(msg) == out + Redacted(msg[i..])
    {
      var next, piece := ScanStep(msg, lower, i);
      Regroup(out, piece, Redacted(msg[next..]));
      out := out + piece;
      i := next;
    }
    assert msg[i..] == "";
  }

  lemma Regroup(a: string, b: string, c: string)
    ensures a + (b + c) == (a + b) + c
  {
  }

  lemma RedactKeyedAt(msg: string, i: nat, k: nat)
    requires i <= |msg| && KeyAt(msg[i..]) == Some(k)
    ensures var j := i + |Key(k)|;
            && j <= |msg|
            && var n := RunLength(k, msg[j..]);
            && Redacted(msg[i..]) == msg[i..j] + Mask(n) + Redacted(msg[j + n..])
  {
    hide Key, Redacted, RunLength, KeyFrom, StartsWith;
    var rest := msg[i..];
    KeyNotEmpty(rest, k);
    RedactKeyed(rest, k);
    assert rest[|Key(k)|..] == msg[i + |Key(k)|..];
    assert RestOf(rest, k) == msg[i + |Key(k)| + RunOf(rest, k)..];
  }

  lemma NothingRedacted()
    ensures Redacted("") == ""
  {
  }

  lemma RedactCopied(s: string)
    requires s != [] && KeyAt(s) == None
    ensures Redacted(s) == [s[0]] + Redacted(s[1..])
  {
    hide Key, RunLength, KeyFrom, StartsWith;
  }

  // ---------------------------------------------------------------- what redaction is

  /** A message cut into single copied characters and keys with their secret runs. */
  datatype Token = Copied(c: char) | Secret(k: nat, key: string, run: string)

  /** `ts` cuts `s` greedily from the left: a character is copied only where no key starts, and a
      run goes as far as it can. */
  ghost predicate Cuts(ts: seq<Token>, s: string)
    decreases |ts|
  {
    if ts == [] then s == []
    else
      match ts[0]
      case Copied(c) => s != [] && s[0] == c && KeyAt(s).None? && Cuts(ts[1..], s[1..])
      case Secret(k, key, run) =>
        && KeyAt(s) == Some(k) && |key| == |Key(k)|
        && key + run <= s
        && GreedyRun(k, run, s[|key + run|..])
        && Cuts(ts[1..], s[|key + run|..])
  }

  ghost predicate GreedyRun(k: nat, run: string, rest: string) {
    (forall c <- run :: !Ends(k, c)) && (rest != [] ==> Ends(k, rest[0]))
  }

  /** The parts of a keyed text, read off a cut of it. */
  lemma CutParts(s: string, k: nat, key: string, run: string, rest: string)
    requires KeyAt(s) == Some(k) && |key| == |Key(k)|
    requires s == key + run + rest && GreedyRun(k, run, rest)
    ensures KeyOf(s, k) == key && RunOf(s, k) == |run| && RestOf(s, k) == rest
  {
    hide Key, KeyFrom, StartsWith, Ends, RunLength;
    var tail := s[|key|..];
    assert tail == run + rest;
    assert tail[..|run|] == run;
    RunIsUnique(k, tail, |run|);
  }

  function Plain(ts: seq<Token>): string {
    if ts == [] then []
    else (match ts[0]
          case Copied(c) => [c]
          case Secret(_, key, run) => key + run) + Plain(ts[1..])
  }

  /** The message with every non-empty run replaced. */
  function Masked(ts: seq<Token>): string {
    if ts == [] then []
    else (match ts[0]
          case Copied(c) => [c]
          case Secret(_, key, run) => key + (if run == [] then [] else STARS)) + Masked(ts[1..])
  }

  lemma {:induction false} RunIsUnique(k: nat, s: string, n: nat)
    requires n <= |s|
    requires forall c <- s[..n] :: !Ends(k, c)
    requires n < |s| ==> Ends(k, s[n])
    ensures RunLength(k, s) == n
  {
    if n > 0 {
      assert s[..n][0] in s[..n];
      assert s[..n] == [s[0]] + s[1..][..n - 1];
      RunIsUnique(k, s[1..], n - 1);
    }
  }

  /** Every message has a greedy cut. */
  lemma {:induction false} CutExists(s: string) returns (ts: seq<Token>)
    ensures Cuts(ts, s)
    decreases |s|
  {
    hide Key, KeyFrom, StartsWith, Ends;
    if s == [] {
      return [];
    }
    match KeyAt(s)
    case Some(k) =>
      KeyNotEmpty(s, k);
      var key, tail := KeyOf(s, k), s[|Key(k)|..];
      var run := tail[..RunOf(s, k)];
      var rest := CutExists(RestOf(s, k));
      assert s[|key + run|..] == RestOf(s, k);
      ts := [Secret(k, key, run)] + rest;
      assert ts[1..] == rest;
    case None =>
      var rest := CutExists(s[1..]);
      ts := [Copied(s[0])] + rest;
      assert ts[1..] == rest;
  }

  /** However it is cut greedily, the message is the concatenation of the pieces and its redaction
      is the same concatenation with each non-empty secret run replaced by three stars. */
  lemma {:induction false} RedactionMasksRuns(ts: seq<Token>, s: string)
    requires Cuts(ts, s)
    ensures Plain(ts) == s
    ensures Masked(ts) == Redacted(s)
    decreases |ts|
  {
    hide Key, KeyFrom, StartsWith, Ends, Redacted, KeyOf, RunOf, RestOf;
    if ts == [] {
      NothingRedacted();
    } else {
      match ts[0]
      case Copied(c) =>
        RedactionMasksRuns(ts[1..], s[1..]);
        RedactCopied(s);
      case Secret(k, key, run) =>
        var rest := s[|key + run|..];
        RedactionMasksRuns(ts[1..], rest);
        assert s == key + run + rest;
        CutParts(s, k, key, run, rest);
        RedactKeyed(s, k);
    }
  }

  // ---------------------------------------------------------------- identity and idempotence

  predicate NoStar(w: string) {
    forall i :: 0 <= i < |w| ==> w[i] != '*'
  }

  lemma StartsWithCons(s: string, w: string)
    requires s != [] && w != []
    ensures StartsWith(s, w) <==> Lower(s[0]) == w[0] && StartsWith(s[1..], w[1..])
  {
    if Lower(s[0]) == w[0] && StartsWith(s[1..], w[1..]) {
      forall i | 0 <= i < |w| ensures Lower(s[i]) == w[i] {
        if i > 0 {
          assert s[i] == s[1..][i - 1] && w[i] == w[1..][i - 1];
        }
      }
    }
  }

  lemma StartsWithSplit(head: string, tail: string, w: string)
    requires |head| <= |w|
    ensures StartsWith(head + tail, w) <==> StartsWith(head, w[..|head|]) && StartsWith(tail, w[|head|..])
  {
    var s := head + tail;
    if StartsWith(s, w) {
      forall i | 0 <= i < |head| ensures Lower(head[i]) == w[..|head|][i] {
        assert Lower(s[i]) == w[i];
      }
      forall i | 0 <= i < |w| - |head| ensures Lower(tail[i]) == w[|head|..][i] {
        assert Lower(s[i + |head|]) == w[i + |head|];
      }
    }
    if StartsWith(head, w[..|head|]) && StartsWith(tail, w[|head|..]) {
      forall i | 0 <= i < |w| ensures Lower(s[i]) == w[i] {
        if i >= |head| {
          assert Lower(tail[i - |head|]) == w[|head|..][i - |head|];
        } else {
          assert Lower(head[i]) == w[..|head|][i];
        }
      }
    }
  }

  /** A star-free word found at the start of the redacted text was at the start of the text. */
  lemma {:induction false} PrefixSurvives(t: string, w: string)
    requires NoStar(w) && StartsWith(Redacted(t), w)
    ensures StartsWith(t, w)
    decreases |t|, 1
  {
    if w != [] {
      match KeyAt(t)
      case None => PrefixPastChar(t, w);
      case Some(k) => PrefixPastKey(t, w, k);
    }
  }

  lemma {:induction false} PrefixPastChar(t: string, w: string)
    requires t != [] && w != [] && NoStar(w) && StartsWith([t[0]] + Redacted(t[1..]), w)
    ensures StartsWith(t, w)
    decreases |t|, 0
  {
    hide Redacted, Key, StartsWith;
    StartsWithCons([t[0]] + Redacted(t[1..]), w);
    PrefixSurvives(t[1..], w[1..]);
    StartsWithCons(t, w);
  }

  lemma MaskBlocks(head: string, tail: string, w: string)
    requires NoStar(w) && StartsWith(head + STARS + tail, w)
    ensures |w| <= |head|
  {
    assert (head + STARS + tail)[|head|] == '*';
  }

  lemma StartsWithFirst(head: string, tail: string, tail': string, w: string)
    requires |w| <= |head| && StartsWith(head + tail, w)
    ensures StartsWith(head + tail', w)
  {
    assert forall i :: 0 <= i < |w| ==> (head + tail')[i] == (head + tail)[i];
  }

  lemma {:induction false} PrefixPastKey(t: string, w: string, k: nat)
    requires NoStar(w) && StartsWith(Redacted(t), w) && KeyAt(t) == Some(k)
    ensures StartsWith(t, w)
    decreases |t|, 0
  {
    hide Redacted, Key, RunLength, StartsWith, KeyFrom;
    RedactKeyed(t, k);
    KeyNotEmpty(t, k);
    var head, rest := KeyOf(t, k), RestOf(t, k);
    var out := Redacted(rest);
    if RunOf(t, k) > 0 {
      MaskBlocks(head, out, w);
      assert Redacted(t) == head + (STARS + out);
      StartsWithFirst(head, STARS + out, t[|head|..], w);
      assert head + t[|head|..] == t;
    } else {
      assert Redacted(t) == head + out && t == head + rest;
      if |w| <= |head| {
        StartsWithFirst(head, out, rest, w);
      } else {
        StartsWithSplit(head, out, w);
        PrefixSurvives(rest, w[|head|..]);
        StartsWithSplit(head, rest, w);
      }
    }
  }

  /** No key holds a star, and none is a prefix of another. */
  lemma KeyHasNoStar(i: nat)
    requires i < KEY_COUNT
    ensures NoStar(Key(i))
  {
  }

  lemma KeysAreApart(i: nat, j: nat)
    requires i < KEY_COUNT && j < KEY_COUNT
    ensures i != j ==> exists p :: 0 <= p < |Key(i)| && p < |Key(j)| && Key(i)[p] != Key(j)[p]
  {
    if i != j {
      var p := if Key(i)[0] != Key(j)[0] then 0 else if Key(i)[1] != Key(j)[1] then 1 else 3;
      assert Key(i)[p] != Key(j)[p];
    }
  }

  lemma KeyIsUnique(s: string, k: nat)
    requires k < KEY_COUNT && StartsWith(s, Key(k))
    ensures KeyAt(s) == Some(k)
  {
    var j := KeyAt(s).value;
    KeysAreApart(j, k);
  }

  lemma KeyInitial(k: nat)
    requires k < KEY_COUNT
    ensures Key(k) != "" && 'a' <= Key(k)[0] <= 'z'
  {
  }

  lemma EndIsNoLetter(k: nat, c: char)
    requires Ends(k, c)
    ensures !('a' <= Lower(c) <= 'z')
  {
  }

  /** A text that begins with a run-ending character begins with no key. */
  lemma EndStartsNoKey(k: nat, s: string)
    requires s != [] && Ends(k, s[0])
    ensures KeyAt(s) == None
  {
    hide Key, Ends;
    EndIsNoLetter(k, s[0]);
    forall j: nat | j < KEY_COUNT ensures !StartsWith(s, Key(j)) {
      KeyInitial(j);
    }
  }

  /** Behind a key, the redacted text has the mask as its run. */
  lemma MaskIsRun(k: nat, n: nat, rest: string)
    requires rest != [] ==> Ends(k, rest[0])
    ensures RunLength(k, Mask(n) + Redacted(rest)) == |Mask(n)|
    ensures (Mask(n) + Redacted(rest))[|Mask(n)|..] == Redacted(rest)
  {
    var s := Mask(n) + Redacted(rest);
    if rest != [] {
      EndStartsNoKey(k, rest);
    }
    assert s[..|Mask(n)|] == Mask(n);
    RunIsUnique(k, s, |Mask(n)|);
  }

  lemma RedactKeyed(s: string, k: nat)
    requires KeyAt(s) == Some(k)
    ensures Redacted(s) == KeyOf(s, k) + Mask(RunOf(s, k)) + Redacted(RestOf(s, k))
  {
    hide Key, RunLength, KeyFrom, StartsWith, KeyOf, RunOf, RestOf, Mask;
    KeyNotEmpty(s, k);
  }

  lemma KeyNotEmpty(s: string, k: nat)
    requires KeyAt(s) == Some(k)
    ensures s != [] && 0 < |Key(k)| <= |s|
  {
    hide Key;
    KeyLength(k);
  }

  /** Redacting twice changes nothing more. */
  lemma {:induction false} RedactIdempotent(s: string)
    ensures Redacted(Redacted(s)) == Redacted(s)
    decreases |s|
  {
    if s != [] {
      match KeyAt(s)
      case Some(k) => IdempotentKeyed(s, k);
      case None => IdempotentCopied(s);
    }
  }

  lemma {:induction false} IdempotentKeyed(s: string, k: nat)
    requires KeyAt(s) == Some(k)
    ensures Redacted(Redacted(s)) == Redacted(s)
    decreases |s|, 0
  {
    hide Redacted, RunLength, Key, KeyFrom, StartsWith;
    RedactKeyed(s, k);
    KeyNotEmpty(s, k);
    var head, mask, rest := KeyOf(s, k), Mask(RunOf(s, k)), RestOf(s, k);
    RedactIdempotent(rest);
    KeyedOutput(head, mask, rest, s, k);
    RedactKeyed(Redacted(s), k);
  }

  lemma RunStops(s: string, k: nat)
    requires KeyAt(s) == Some(k)
    ensures RestOf(s, k) != "" ==> Ends(k, RestOf(s, k)[0])
  {
    hide Key, KeyFrom, StartsWith, Ends;
    KeyNotEmpty(s, k);
    var tail := s[|Key(k)|..];
    assert RestOf(s, k) == tail[RunOf(s, k)..];
  }

  /** The redacted text begins with the same key, and its run is the mask. */
  lemma KeyedOutput(head: string, mask: string, rest: string, s: string, k: nat)
    requires KeyAt(s) == Some(k)
    requires head == KeyOf(s, k) && mask == Mask(RunOf(s, k)) && rest == RestOf(s, k)
    ensures var out := head + mask + Redacted(rest);
            && KeyAt(out) == Some(k)
            && KeyOf(out, k) == head && Mask(RunOf(out, k)) == mask && RestOf(out, k) == Redacted(rest)
  {
    hide Redacted, RunLength, Key, KeyFrom, Ends;
    KeyNotEmpty(s, k);
    RunStops(s, k);
    MaskIsRun(k, RunOf(s, k), rest);
    var out := head + mask + Redacted(rest);
    assert forall i :: 0 <= i < |head| ==> out[i] == s[i];
    assert StartsWith(out, Key(k));
    KeyIsUnique(out, k);
    assert out[|head|..] == mask + Redacted(rest);
  }

  lemma {:induction false} IdempotentCopied(s: string)
    requires s != [] && KeyAt(s) == None
    ensures Redacted(Redacted(s)) == Redacted(s)
    decreases |s|, 0
  {
    hide Key, StartsWith;
    var out := Redacted(s);
    RedactIdempotent(s[1..]);
    assert out == [s[0]] + Redacted(s[1..]);
    assert out[1..] == Redacted(s[1..]);
    NoKeyAppears(s);
  }

  /** A character no key starts at is still one when the rest has been redacted. */
  lemma NoKeyAppears(s: string)
    requires s != [] && KeyAt(s) == None
    ensures KeyAt([s[0]] + Redacted(s[1..])) == None
  {
    hide Key, StartsWith, Redacted;
    var k := KeyAt([s[0]] + Redacted(s[1..]));
    if k.Some? {
      KeyFromRedacted(s, k.value);
    }
  }

  lemma KeyFromRedacted(s: string, k: nat)
    requires s != [] && k < KEY_COUNT && StartsWith([s[0]] + Redacted(s[1..]), Key(k))
    ensures StartsWith(s, Key(k))
  {
    KeyLength(k);
    KeyHasNoStar(k);
    PrefixPastChar(s, Key(k));
  }

  /** A message is left as it is exactly when each of its secret runs is empty or already masked;
      in particular when no key occurs in it at all. */
  lemma {:induction false} UnchangedIff(ts: seq<Token>, s: string)
    requires Cuts(ts, s)
    ensures Redacted(s) == s <==> forall t <- ts :: t.Secret? ==> t.run == [] || t.run == STARS
    decreases |ts|
  {
    hide Redacted, Key, KeyFrom, StartsWith, Ends, KeyOf, RunOf, RestOf;
    NothingRedacted();
    if ts != [] {
      assert ts == [ts[0]] + ts[1..];
      match ts[0]
      case Copied(c) =>
        UnchangedIff(ts[1..], s[1..]);
        RedactCopied(s);
        assert s == [c] + s[1..];
        assert ([c] + Redacted(s[1..]))[1..] == Redacted(s[1..]);
      case Secret(k, key, run) => UnchangedKeyed(ts, s, k);
    }
  }

  lemma {:induction false} UnchangedKeyed(ts: seq<Token>, s: string, k: nat)
    requires Cuts(ts, s) && ts != [] && ts[0].Secret? && ts[0].k == k
    ensures Redacted(s) == s <==> forall t <- ts :: t.Secret? ==> t.run == [] || t.run == STARS
    decreases |ts|, 0
  {
    hide Redacted, RunLength, Key, KeyFrom, StartsWith, Ends, KeyOf, RunOf, RestOf, GreedyRun;
    var run, key := ts[0].run, ts[0].key;
    var rest := s[|key + run|..];
    UnchangedIff(ts[1..], rest);
    assert ts == [ts[0]] + ts[1..];
    assert s == key + run + rest;
    CutParts(s, k, key, run, rest);
    RedactKeyed(s, k);
    MaskLength(k, run, rest);
    SameParts(key, Mask(|run|), Redacted(rest), run, rest);
  }

  lemma SameParts(key: string, mask: string, out: string, run: string, rest: string)
    requires mask + out == run + rest ==> |mask| == |run|
    ensures key + mask + out == key + run + rest <==> mask == run && out == rest
  {
    if key + mask + out == key + run + rest {
      assert (key + mask + out)[|key|..] == mask + out;
      assert (key + run + rest)[|key|..] == run + rest;
      assert (mask + out)[..|mask|] == mask && (run + rest)[..|run|] == run;
      assert (mask + out)[|mask|..] == out && (run + rest)[|run|..] == rest;
    }
  }

  /** If masking a run gives back the text, the mask has the length of the run. */
  lemma MaskLength(k: nat, run: string, rest: string)
    requires GreedyRun(k, run, rest)
    ensures Mask(|run|) + Redacted(rest) == run + rest ==> |Mask(|run|)| == |run|
  {
    hide Redacted, Ends;
    MaskIsRun(k, |run|, rest);
    assert (run + rest)[..|run|] == run;
    RunIsUnique(k, run + rest, |run|);
  }

  /** A message in which no key occurs anywhere is left as it is. */
  lemma {:induction false} KeyFreeUnchanged(s: string)
    requires forall i :: 0 <= i < |s| ==> KeyAt(s[i..]) == None
    ensures Redacted(s) == s
    decreases |s|
  {
    if s != [] {
      assert s[0..] == s;
      forall i | 0 <= i < |s[1..]| ensures KeyAt(s[1..][i..]) == None {
        assert s[1..][i..] == s[i + 1..];
      }
      KeyFreeUnchanged(s[1..]);
    }
  }

  /** A text without the characters keys end in holds no key. */
  lemma NoKeyWithout(s: string)
    requires '=' !in s && ' ' !in s
    ensures forall i :: 0 <= i < |s| ==> KeyAt(s[i..]) == None
  {
    hide KeyFrom, Key, StartsWith;
    forall i, k | 0 <= i < |s| && 0 <= k < KEY_COUNT ensures !StartsWith(s[i..], Key(k)) {
      KeyNeedsEnding(s[i..], k);
    }
  }

  lemma KeyNeedsEnding(s: string, k: nat)
    requires k < KEY_COUNT
    ensures StartsWith(s, Key(k)) ==> '=' in s || ' ' in s
  {
    KeyEnding(k);
    hide Key;
    if StartsWith(s, Key(k)) {
      assert Lower(s[|Key(k)| - 1]) == Key(k)[|Key(k)| - 1];
    }
  }

  lemma KeyEnding(k: nat)
    requires k < KEY_COUNT
    ensures Key(k) != "" && (Key(k)[|Key(k)| - 1] == '=' || Key(k)[|Key(k)| - 1] == ' ')
  {
  }

  function PlainToken(t: Token): string {
    match t case Copied(c) => [c] case Secret(_, key, run) => if run == [] then key else key + run
  }

  function MaskedToken(t: Token): string {
    match t case Copied(c) => [c] case Secret(_, key, run) => if run == [] then key else key + STARS
  }

  /** What the first token puts in front of the rest, before and after masking. */
  lemma FirstToken(head: string, ts: seq<Token>)
    requires ts != []
    ensures head + Plain(ts) == head + PlainToken(ts[0]) + Plain(ts[1..])
    ensures head + Masked(ts) == head + MaskedToken(ts[0]) + Masked(ts[1..])
  {
    TokenTexts(ts);
    hide Plain, Masked, PlainToken, MaskedToken;
    Regroup(head, PlainToken(ts[0]), Plain(ts[1..]));
    Regroup(head, MaskedToken(ts[0]), Masked(ts[1..]));
  }

  lemma TokenTexts(ts: seq<Token>)
    requires ts != []
    ensures Plain(ts) == PlainToken(ts[0]) + Plain(ts[1..])
    ensures Masked(ts) == MaskedToken(ts[0]) + Masked(ts[1..])
  {
    match ts[0]
    case Copied(c) =>
    case Secret(_, key, run) =>
      if run == [] {
        assert key + run == key && key + [] == key;
      }
  }

  /** A star-free word in a redacted text was in the text, letter for letter; `head` is what stands
      in front of both. */
  lemma {:induction false} WordSurvives(head: string, ts: seq<Token>, w: string, i: nat)
    requires w != "" && NoStar(w) && At(head + Masked(ts), w, i)
    ensures Contains(head + Plain(ts), w)
    decreases |ts|
  {
    if ts == [] {
      assert head + Plain(ts) == head + Masked(ts);
    } else {
      FirstToken(head, ts);
      hide Masked, Plain, At, Contains, NoStar;
      match ts[0]
      case Copied(c) => WordSurvives(head + [c], ts[1..], w, i);
      case Secret(_, key, run) =>
        if run == [] {
          WordSurvives(head + key, ts[1..], w, i);
        } else {
          var masked, plain := Masked(ts[1..]), Plain(ts[1..]);
          forall j: nat | At("" + masked, w, j) ensures Contains("" + plain, w) {
            WordSurvives("", ts[1..], w, j);
          }
          WordPastMask(head, key, run, masked, plain, w, i);
        }
    }
  }

  lemma WordPastMask(head: string, key: string, run: string, masked: string, plain: string, w: string, i: nat)
    requires w != "" && NoStar(w) && At(head + (key + STARS) + masked, w, i)
    requires forall j: nat :: At("" + masked, w, j) ==> Contains("" + plain, w)
    ensures Contains(head + (key + run) + plain, w)
  {
    hide At, Contains, NoStar;
    var front := head + key;
    assert head + (key + STARS) + masked == front + STARS + masked;
    PastStars(front, masked, w, i);
    if i + |w| <= |front| {
      WordIn(front, run + plain, w, i);
      assert head + (key + run) + plain == front + (run + plain);
    } else {
      WordBehind(head + (key + run), plain, w);
    }
  }

  lemma PastStars(a: string, b: string, w: string, i: nat)
    requires w != "" && NoStar(w) && At(a + STARS + b, w, i)
    ensures if i + |w| <= |a| then At(a, w, i) else i >= |a| + 3 && At("" + b, w, i - |a| - 3)
  {
    var s := a + STARS + b;
    assert s[|a|] == '*' && s[|a| + 1] == '*' && s[|a| + 2] == '*';
    forall j | i <= j < i + |w| ensures s[j] != '*' {
      assert s[i..i + |w|][j - i] == s[j];
    }
    if i + |w| <= |a| {
      assert s[i..i + |w|] == a[i..i + |w|];
    } else {
      assert i >= |a| + 3;
      assert s[|a| + 3..] == b;
      assert s[i..i + |w|] == b[i - |a| - 3..i - |a| - 3 + |w|];
      assert "" + b == b;
    }
  }

  lemma WordIn(a: string, b: string, w: string, i: nat)
    requires i + |w| <= |a|
    requires At(a, w, i)
    ensures Contains(a + b, w)
  {
    assert (a + b)[i..i + |w|] == a[i..i + |w|];
    assert At(a + b, w, i);
  }

  lemma WordBehind(a: string, b: string, w: string)
    requires Contains("" + b, w)
    ensures Contains(a + b, w)
  {
    assert "" + b == b;
    var i :| 0 <= i <= |b| && At(b, w, i);
    assert (a + b)[|a| + i..|a| + i + |w|] == b[i..i + |w|];
    assert At(a + b, w, |a| + i);
  }

  /** So no star-free word comes into a text by redaction. */
  lemma RedactionAddsNoWord(s: string, w: string)
    requires w != "" && NoStar(w) && Contains(Redacted(s), w)
    ensures Contains(s, w)
  {
    hide Redacted, Cuts;
    var ts := CutExists(s);
    RedactionMasksRuns(ts, s);
    var i :| 0 <= i <= |Redacted(s)| && At(Redacted(s), w, i);
    assert "" + Masked(ts) == Redacted(s) && "" + Plain(ts) == s;
    WordSurvives("", ts, w, i);
  }

  // ---------------------------------------------------------------- which words are keys

  /** The words a secret follows. */
  function KeyWords(): seq<string> {
    ["bearer ", "token=", "access_token=", "api_key=", "apikey=", "secret=", "password="]
  }

  /** The text begins with the word, up to the case of ASCII letters. */
  predicate BeginsWith(s: string, w: string) {
    |w| <= |s| && SameWord(s[..|w|], w)
  }

  lemma StartsWithIff(s: string, w: string)
    requires forall i :: 0 <= i < |w| ==> !(65 <= w[i] as int <= 90)
    ensures StartsWith(s, w) <==> BeginsWith(s, w)
  {
    if |w| <= |s| {
      ToLowerIff(s[..|w|], w);
      assert forall i :: 0 <= i < |w| ==> ToLower(s[..|w|])[i] == Lower(s[i]);
    }
  }

  lemma KeyIsLower(k: nat)
    requires k < KEY_COUNT
    ensures KEY_COUNT == |KeyWords()| && Key(k) == KeyWords()[k]
    ensures forall i :: 0 <= i < |Key(k)| ==> !(65 <= Key(k)[i] as int <= 90)
  {
  }

  /** A text begins with a key exactly when its first characters are one of the seven words in any
      case. */
  lemma KeyAtIff(s: string)
    ensures KeyAt(s).Some? <==> exists k :: 0 <= k < |KeyWords()| && BeginsWith(s, KeyWords()[k])
    ensures forall k :: 0 <= k < |KeyWords()| && BeginsWith(s, KeyWords()[k]) ==> KeyAt(s) == Some(k)
  {
    hide KeyWords, Key, StartsWith, BeginsWith, KeyFrom;
    KeyIsLower(0);
    forall k: nat | k < KEY_COUNT ensures StartsWith(s, Key(k)) <==> BeginsWith(s, KeyWords()[k]) {
      KeyIsLower(k);
      StartsWithIff(s, Key(k));
    }
    forall k | 0 <= k < |KeyWords()| && BeginsWith(s, KeyWords()[k]) ensures KeyAt(s) == Some(k) {
      KeyIsUnique(s, k);
    }
  }

  /** A secret after "bearer " ends at white space; after a parameter name also at a delimiter. */
  predicate Delimits(k: nat, c: char) {
    White(c) || (k > 0 && c as int in {38, 34, 39, 44, 41, 125})
  }

  lemma EndsIff(k: nat, c: char)
    ensures Ends(k, c) <==> Delimits(k, c)
  {
    hide White;
  }

  /** A key in any case, then a run of characters that do not end it, then the end of the text or a
      character that does: the key stays, the run becomes three stars unless it is empty, and the
      redaction goes on behind it. */
  lemma SecretIsMasked(key: string, k: nat, run: string, rest: string)
    requires k < |KeyWords()| && SameWord(key, KeyWords()[k])
    requires (forall c <- run :: !Delimits(k, c)) && (rest != "" ==> Delimits(k, rest[0]))
    ensures Redacted(key + run + rest) == key + (if run == "" then "" else "***") + Redacted(rest)
  {
    var s := key + run + rest;
    KeyIsLower(if k < KEY_COUNT then k else 0);
    assert s[..|key|] == key;
    KeyAtIff(s);
    assert forall c <- run :: !Ends(k, c) by {
      forall c <- run ensures !Ends(k, c) { EndsIff(k, c); }
    }
    if rest != "" {
      EndsIff(k, rest[0]);
    }
    hide KeyWords, Key, KeyFrom, Ends, Delimits, BeginsWith, SameWord, Redacted;
    CutParts(s, k, key, run, rest);
    RedactKeyed(s, k);
  }

  /** A bearer credential, whatever the case of the word in front of it. */
  lemma BearerIsMasked(word: string, run: string, rest: string)
    requires SameWord(word, "bearer ") && run != ""
    requires (forall c <- run :: !White(c)) && (rest != "" ==> White(rest[0]))
    ensures Redacted(word + run + rest) == word + "***" + Redacted(rest)
  {
    hide White, Redacted;
    assert KeyWords()[0] == "bearer ";
    SecretIsMasked(word, 0, run, rest);
  }

  lemma KeylessTail(front: string, s: string)
    requires front != "" && forall i :: 0 <= i < |front| ==> KeyAt((front + s)[i..]) == None
    ensures forall i :: 0 <= i < |front[1..]| ==> KeyAt((front[1..] + s)[i..]) == None
  {
    hide KeyAt;
    forall i | 0 <= i < |front[1..]| ensures KeyAt((front[1..] + s)[i..]) == None {
      assert (front[1..] + s)[i..] == (front + s)[i + 1..];
    }
  }

  /** Text in which no key begins is copied. */
  lemma {:induction false} KeylessFrontIsCopied(front: string, s: string)
    requires forall i :: 0 <= i < |front| ==> KeyAt((front + s)[i..]) == None
    ensures Redacted(front + s) == front + Redacted(s)
  {
    if front == "" {
      assert front + s == s;
    } else {
      hide KeyFrom, KeyAt, Redacted;
      var t := front + s;
      assert t[0..] == t && t[1..] == front[1..] + s;
      assert KeyAt(t[0..]) == None;
      KeylessTail(front, s);
      KeylessFrontIsCopied(front[1..], s);
      RedactCopied(t);
      Regroup([front[0]], front[1..], Redacted(s));
      assert [front[0]] + front[1..] == front;
    }
  }
}
