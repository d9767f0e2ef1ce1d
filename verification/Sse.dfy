/** The delivery stream: splitting it into events and reading their payloads. */
module Sse {
  import opened Wrappers

  /** The text with its carriage returns dropped. */
  function NoCr(s: string): string {
    if s == "" then "" else (if s[0] == '\r' then "" else [s[0]]) + NoCr(s[1..])
  }

  predicate BlankAt(s: string, i: int) {
    0 <= i && i + 1 < |s| && s[i] == '\n' && s[i + 1] == '\n'
  }

  /** Where the first event boundary starts. */
  function FindBlank(s: string): (r: Option<nat>)
    ensures match r
            case Some(i) => BlankAt(s, i) && forall j :: 0 <= j < i ==> !BlankAt(s, j)
            case None => forall j :: !BlankAt(s, j)
  {
    if |s| < 2 then None
    else if BlankAt(s, 0) then Some(0)
    else
      var r := FindBlank(s[1..]);
      assert forall j :: 1 <= j ==> (BlankAt(s, j) <==> BlankAt(s[1..], j - 1));
      if r.Some? then Some(r.value + 1) else None
  }

  /** The complete events at the front of the text, each with its boundary. */
  function Blocks(s: string): seq<string>
    decreases |s|
  {
    var i := FindBlank(s);
    if i.None? then [] else [s[..i.value + 2]] + Blocks(s[i.value + 2..])
  }

  /** What is left after them. */
  function Rest(s: string): string
    decreases |s|
  {
    var i := FindBlank(s);
    if i.None? then s else Rest(s[i.value + 2..])
  }

  function Flatten(ss: seq<string>): string {
    if ss == [] then "" else ss[0] + Flatten(ss[1..])
  }

  // ---------------------------------------------------------------- one event

  /** The position of the first line feed, or the length. */
  function LineEnd(s: string): (i: nat)
    ensures i <= |s| && (i < |s| ==> s[i] == '\n') && forall j :: 0 <= j < i ==> s[j] != '\n'
  {
    if s == "" || s[0] == '\n' then 0 else 1 + LineEnd(s[1..])
  }

  function Chomp(line: string): string {
    if line != "" && line[|line| - 1] == '\r' then line[..|line| - 1] else line
  }

  function Lines(s: string): seq<string>
    decreases |s|
  {
    var i := LineEnd(s);
    if s == "" then [] else if i == |s| then [s] else [Chomp(s[..i])] + Lines(s[i + 1..])
  }

  const DATA := "data:"

  /** The value of a data line, less one leading space. */
  function DataOf(line: string): Option<string> {
    if DATA <= line then
      var rest := line[|DATA|..];
      Some(if rest != "" && rest[0] == ' ' then rest[1..] else rest)
    else None
  }

  /** Which lines carry data, and what: all that follows the colon, less one space directly behind it. */
  lemma DataOfIff(line: string, v: string)
    ensures DataOf(line) == Some(v) <==> line == "data: " + v || (line == "data:" + v && (v == "" || v[0] != ' '))
  {
    assert "data: " + v == "data:" + (" " + v);
    if DATA <= line {
      assert line == "data:" + line[5..];
      var rest := line[5..];
      assert rest != "" && rest[0] == ' ' ==> rest == " " + rest[1..];
    }
    if line == "data:" + (" " + v) {
      assert line[..5] == "data:" && line[5..] == " " + v;
    }
    if line == "data:" + v {
      assert line[..5] == "data:" && line[5..] == v;
    }
  }

  function DataLines(lines: seq<string>): seq<string> {
    if lines == [] then []
    else
      var v := DataOf(lines[|lines| - 1]);
      DataLines(lines[..|lines| - 1]) + (if v.Some? then [v.value] else [])
  }

  function Join(lines: seq<string>): string
    requires lines != []
  {
    if |lines| == 1 then lines[0] else lines[0] + "\n" + Join(lines[1..])
  }

  function SseData(block: string): Option<string> {
    var data := DataLines(Lines(block));
    if data == [] then None else Some(Join(data))
  }

  method ExtractSseData(block: string) returns (r: Option<string>)
    ensures r == SseData(block)
  {
    var data: seq<string> := [];
    var lines := Lines(block);
    for i := 0 to |lines|
      invariant data == DataLines(lines[..i])
    {
      assert lines[..i + 1][..i] == lines[..i];
      var v := DataOf(lines[i]);
      if v.Some? {
        data := data + [v.value];
      }
    }
    assert lines[..|lines|] == lines;
    r := if data == [] then None else Some(Join(data));
  }

  /** The payloads of a series of events. */
  function Payloads(blocks: seq<string>): seq<string> {
    if blocks == [] then []
    else
      var d := SseData(blocks[0]);
      (if d.Some? then [d.value] else []) + Payloads(blocks[1..])
  }

  // ---------------------------------------------------------------- the receiving loop

  /** Hands over every complete event at the front of the text. */
  method DrainBlocks(text: string) returns (handled: seq<string>, buf: string)
    ensures handled == Payloads(Blocks(text)) && buf == Rest(text)
  {
    hide FindBlank, SseData, Payloads, Blocks, Rest;
    handled, buf := [], text;
    PayloadsNil();
    var i := FindBlank(buf);
    while i.Some?
      invariant i == FindBlank(buf)
      invariant Rest(buf) == Rest(text)
      invariant handled + Payloads(Blocks(buf)) == Payloads(Blocks(text))
      decreases |buf|
    {
      var block := buf[..i.value + 2];
      TakeBlock(buf);
      buf := buf[i.value + 2..];
      PayloadsConcat([block], Blocks(buf));
      OnePayload(block);
      var data := ExtractSseData(block);
      if data.Some? {
        handled := handled + [data.value];
      }
      i := FindBlank(buf);
    }
    NoBlock(buf);
  }

  /** Reads a connection to its end: the payloads handed over, and the text left waiting for a
      boundary. Whatever the chunks, both are those of the stream as a whole. */
  method StreamOnce(chunks: seq<string>) returns (handled: seq<string>, buf: string)
    ensures handled == Payloads(Blocks(NoCr(Flatten(chunks))))
    ensures buf == Rest(NoCr(Flatten(chunks)))
  {
    hide NoCr, Flatten, Payloads, Blocks, Rest;
    StreamStart(chunks);
    handled, buf := [], "";
    for n := 0 to |chunks|
      invariant handled == Payloads(Blocks(NoCr(Flatten(chunks[..n]))))
      invariant buf == Rest(NoCr(Flatten(chunks[..n])))
    {
      ghost var before := NoCr(Flatten(chunks[..n]));
      FlattenSnoc(chunks, n);
      NoCrConcat(Flatten(chunks[..n]), chunks[n]);
      BlocksConcat(before, NoCr(chunks[n]));
      PayloadsConcat(Blocks(before), Blocks(buf + NoCr(chunks[n])));
      var more;
      more, buf := DrainBlocks(buf + NoCr(chunks[n]));
      handled := handled + more;
    }
    assert chunks[..|chunks|] == chunks;
  }

  lemma StreamStart(chunks: seq<string>)
    ensures Payloads(Blocks(NoCr(Flatten(chunks[..0])))) == [] && Rest(NoCr(Flatten(chunks[..0]))) == ""
  {
  }

  lemma TakeBlock(s: string)
    requires FindBlank(s).Some?
    ensures var i := FindBlank(s).value;
            Blocks(s) == [s[..i + 2]] + Blocks(s[i + 2..]) && Rest(s) == Rest(s[i + 2..])
  {
    hide FindBlank;
    BlocksStep(s, FindBlank(s).value);
    RestStep(s, FindBlank(s).value);
    hide Blocks, Rest;
  }

  lemma BlocksStep(s: string, i: nat)
    requires FindBlank(s) == Some(i)
    ensures Blocks(s) == [s[..i + 2]] + Blocks(s[i + 2..])
  {
    hide FindBlank, Rest;
  }

  lemma RestStep(s: string, i: nat)
    requires FindBlank(s) == Some(i)
    ensures Rest(s) == Rest(s[i + 2..])
  {
    hide FindBlank, Blocks;
  }

  lemma NoBlock(s: string)
    requires FindBlank(s).None?
    ensures Blocks(s) == [] && Rest(s) == s
  {
  }

  lemma PayloadsNil()
    ensures Payloads([]) == []
  {
  }

  lemma OnePayload(b: string)
    ensures Payloads([b]) == if SseData(b).Some? then [SseData(b).value] else []
  {
    assert [b][1..] == [] && Payloads([]) == [];
  }

  lemma {:induction false} FlattenSnoc(ss: seq<string>, n: nat)
    requires n < |ss|
    ensures Flatten(ss[..n + 1]) == Flatten(ss[..n]) + ss[n]
  {
    if n == 0 {
      assert ss[..1][1..] == [];
    } else {
      FlattenSnoc(ss[1..], n - 1);
      assert ss[..n + 1][1..] == ss[1..][..n] && ss[..n][1..] == ss[1..][..n - 1];
    }
  }

  lemma {:induction false} NoCrConcat(a: string, b: string)
    ensures NoCr(a + b) == NoCr(a) + NoCr(b)
  {
    if a == "" {
      assert a + b == b;
    } else {
      var t := a + b;
      assert t[0] == a[0] && t[1..] == a[1..] + b;
      NoCrConcat(a[1..], b);
      var head := if a[0] == '\r' then "" else [a[0]];
      assert NoCr(t) == head + NoCr(t[1..]);
      assert NoCr(a) == head + NoCr(a[1..]);
      hide NoCr;
    }
  }

  lemma {:induction false} PayloadsConcat(a: seq<string>, b: seq<string>)
    ensures Payloads(a + b) == Payloads(a) + Payloads(b)
  {
    hide SseData;
    if a == [] {
      assert a + b == b;
    } else {
      var t := a + b;
      assert t[0] == a[0] && t[1..] == a[1..] + b;
      PayloadsConcat(a[1..], b);
      var head := if SseData(a[0]).Some? then [SseData(a[0]).value] else [];
      assert Payloads(t) == head + Payloads(t[1..]);
      assert Payloads(a) == head + Payloads(a[1..]);
      hide Payloads;
    }
  }

  lemma FindBlankIs(s: string, i: nat)
    requires BlankAt(s, i) && forall j :: 0 <= j < i ==> !BlankAt(s, j)
    ensures FindBlank(s) == Some(i)
  {
  }

  /** Reading more text first finishes what was left of the earlier text. */
  lemma {:induction false} BlocksConcat(a: string, b: string)
    ensures Blocks(a + b) == Blocks(a) + Blocks(Rest(a) + b)
    ensures Rest(a + b) == Rest(Rest(a) + b)
    decreases |a|
  {
    hide FindBlank, Blocks, Rest;
    var f := FindBlank(a);
    if f.None? {
      NoBlock(a);
    } else {
      var i := f.value;
      TakeBlock(a);
      assert forall j :: 0 <= j <= i ==> (BlankAt(a + b, j) <==> BlankAt(a, j));
      FindBlankIs(a + b, i);
      TakeBlock(a + b);
      assert (a + b)[..i + 2] == a[..i + 2] && (a + b)[i + 2..] == a[i + 2..] + b;
      BlocksConcat(a[i + 2..], b);
    }
  }

  // ---------------------------------------------------------------- what the blocks are

  /** A text that holds one event boundary, at its end. */
  predicate IsBlock(b: string) {
    |b| >= 2 && FindBlank(b) == Some(|b| - 2)
  }

  lemma FirstBlock(s: string, i: nat)
    requires FindBlank(s) == Some(i)
    ensures IsBlock(s[..i + 2])
  {
    hide FindBlank;
    var b := s[..i + 2];
    assert forall j :: 0 <= j <= i ==> (BlankAt(b, j) <==> BlankAt(s, j));
    FindBlankIs(b, i);
  }

  lemma FlattenCons(b: string, bs: seq<string>)
    ensures Flatten([b] + bs) == b + Flatten(bs)
  {
    assert ([b] + bs)[1..] == bs;
  }

  lemma BlocksOfBlock(b: string)
    requires IsBlock(b)
    ensures Blocks(b) == [b] && Rest(b) == ""
  {
    assert b[..|b|] == b && b[|b|..] == "";
    assert Blocks("") == [] && Rest("") == "";
  }

  /** The blocks and the rest are a partition of the text into single events. */
  lemma {:induction false} BlocksPartition(s: string)
    ensures Flatten(Blocks(s)) + Rest(s) == s
    ensures FindBlank(Rest(s)) == None
    ensures forall b <- Blocks(s) :: IsBlock(b)
    decreases |s|
  {
    hide FindBlank, Blocks, Rest, IsBlock;
    var f := FindBlank(s);
    if f.None? {
      NoBlock(s);
    } else {
      var b, tail := s[..f.value + 2], s[f.value + 2..];
      FirstBlock(s, f.value);
      BlocksPartition(tail);
      assert s == b + tail;
      TakeBlock(s);
      FlattenCons(b, Blocks(tail));
    }
  }

  /** And the only one. */
  lemma {:induction false} BlocksUnique(bs: seq<string>, rest: string)
    requires forall b <- bs :: IsBlock(b)
    requires FindBlank(rest) == None
    ensures Blocks(Flatten(bs) + rest) == bs
    ensures Rest(Flatten(bs) + rest) == rest
  {
    if bs == [] {
      hide FindBlank;
      assert Flatten(bs) + rest == rest;
    } else {
      hide Blocks, Rest, FindBlank, IsBlock;
      var b, tail := bs[0], Flatten(bs[1..]) + rest;
      assert Flatten(bs) + rest == b + tail;
      BlocksUnique(bs[1..], rest);
      BlocksConcat(b, tail);
      BlocksOfBlock(b);
      assert "" + tail == tail;
      assert bs == [b] + bs[1..];
    }
  }

  // ---------------------------------------------------------------- the sender's side

  datatype Event = Data(text: string) | Comment(note: string)

  predicate Eol(eol: string) { eol == "\n" || eol == "\r\n" }

  function Split(t: string): (ls: seq<string>)
    ensures ls != []
    decreases |t|
  {
    var i := LineEnd(t);
    if i == |t| then [t] else [t[..i]] + Split(t[i + 1..])
  }

  function EncodeLines(ls: seq<string>, eol: string): string {
    if ls == [] then "" else "data: " + ls[0] + eol + EncodeLines(ls[1..], eol)
  }

  /** An event in the format of section 9.2.6 of the HTML Standard: a data line for each line of the
      text, or one comment line; then an empty line. */
  function Encode(e: Event, eol: string): string {
    (match e
     case Data(text) => EncodeLines(Split(text), eol)
     case Comment(note) => ":" + note + eol) + eol
  }

  function EncodeAll(es: seq<Event>, eol: string): string {
    if es == [] then "" else Encode(es[0], eol) + EncodeAll(es[1..], eol)
  }

  /** The texts sent, less their carriage returns. */
  function Texts(es: seq<Event>): seq<string> {
    if es == [] then [] else (if es[0].Data? then [NoCr(es[0].text)] else []) + Texts(es[1..])
  }

  predicate OneLine(s: string) { '\n' !in s }

  predicate CrFree(s: string) { '\r' !in s }

  // ---------------------------------------------------------------- carriage returns

  lemma {:induction false} NoCrKeeps(s: string)
    ensures CrFree(NoCr(s))
    ensures CrFree(s) ==> NoCr(s) == s
    ensures OneLine(s) ==> OneLine(NoCr(s))
  {
    if s != "" {
      NoCrKeeps(s[1..]);
    }
  }

  function NoCrs(ls: seq<string>): seq<string> {
    if ls == [] then [] else [NoCr(ls[0])] + NoCrs(ls[1..])
  }

  lemma LineEndIs(s: string, i: nat)
    requires i <= |s| && (i < |s| ==> s[i] == '\n') && forall j :: 0 <= j < i ==> s[j] != '\n'
    ensures LineEnd(s) == i
  {
  }

  lemma {:induction false} SplitNoCr(t: string)
    ensures Split(NoCr(t)) == NoCrs(Split(t))
    decreases |t|
  {
    hide NoCr, LineEnd;
    var i := LineEnd(t);
    NoCrKeeps(t[..i]);
    var front := NoCr(t[..i]);
    if i == |t| {
      assert t[..i] == t;
      LineEndIs(front, |front|);
    } else {
      var rest := t[i + 1..];
      assert t == t[..i] + (t[i..i + 1] + rest);
      NoCrConcat(t[..i], t[i..i + 1] + rest);
      NoCrConcat(t[i..i + 1], rest);
      NoCrEol("\n");
      assert t[i..i + 1] == "\n";
      var u := NoCr(t);
      assert u == front + "\n" + NoCr(rest);
      LineEndIs(u, |front|);
      assert u[..|front|] == front && u[|front| + 1..] == NoCr(rest);
      SplitNoCr(rest);
    }
  }

  lemma NoCrEol(eol: string)
    requires Eol(eol)
    ensures NoCr(eol) == "\n"
  {
    assert NoCr("\n") == "\n";
    assert "\r\n"[1..] == "\n";
  }

  lemma NoCrPrefix()
    ensures NoCr("data: ") == "data: " && NoCr(":") == ":"
  {
    NoCrKeeps("data: ");
    NoCrKeeps(":");
  }

  lemma {:induction false} EncodeLinesNoCr(ls: seq<string>, eol: string)
    requires Eol(eol)
    ensures NoCr(EncodeLines(ls, eol)) == EncodeLines(NoCrs(ls), "\n")
  {
    hide NoCr;
    if ls != [] {
      NoCrPrefix();
      NoCrEol(eol);
      NoCrConcat("data: " + ls[0] + eol, EncodeLines(ls[1..], eol));
      NoCrConcat("data: " + ls[0], eol);
      NoCrConcat("data: ", ls[0]);
      EncodeLinesNoCr(ls[1..], eol);
    } else {
      NoCrKeeps("");
    }
  }

  function Clean(e: Event): Event {
    match e
    case Data(text) => Data(NoCr(text))
    case Comment(note) => Comment(NoCr(note))
  }

  lemma EncodeNoCr(e: Event, eol: string)
    requires Eol(eol)
    ensures NoCr(Encode(e, eol)) == Encode(Clean(e), "\n")
  {
    hide NoCr, EncodeLines;
    NoCrEol(eol);
    NoCrPrefix();
    match e {
      case Data(text) =>
        NoCrConcat(EncodeLines(Split(text), eol), eol);
        EncodeLinesNoCr(Split(text), eol);
        SplitNoCr(text);
      case Comment(note) =>
        NoCrConcat(":" + note + eol, eol);
        NoCrConcat(":" + note, eol);
        NoCrConcat(":", note);
    }
  }

  // ---------------------------------------------------------------- reading back one event

  lemma {:induction false} SplitParts(t: string)
    ensures forall l <- Split(t) :: OneLine(l) && (CrFree(t) ==> CrFree(l))
    ensures Join(Split(t)) == t
    decreases |t|
  {
    var i := LineEnd(t);
    if i < |t| {
      SplitParts(t[i + 1..]);
      assert t == t[..i] + "\n" + t[i + 1..];
      assert Split(t)[1..] == Split(t[i + 1..]);
    }
  }

  lemma {:induction false} SplitOfJoin(ls: seq<string>)
    requires ls != [] && forall l <- ls :: OneLine(l)
    ensures Split(Join(ls)) == ls
  {
    hide LineEnd;
    var s := Join(ls);
    assert OneLine(ls[0]);
    if |ls| == 1 {
      LineEndIs(s, |s|);
    } else {
      var rest := Join(ls[1..]);
      assert s == ls[0] + "\n" + rest;
      LineEndIs(s, |ls[0]|);
      assert s[..|ls[0]|] == ls[0] && s[|ls[0]| + 1..] == rest;
      SplitOfJoin(ls[1..]);
    }
  }

  lemma PrefixedLine(l: string)
    ensures OneLine(l) ==> OneLine("data: " + l)
    ensures CrFree(l) ==> CrFree("data: " + l)
  {
  }

  /** Nothing in the data lines is a boundary; the empty line after them completes one. */
  lemma {:induction false} EncodeLinesHasNoBlank(ls: seq<string>)
    requires forall l <- ls :: OneLine(l)
    ensures var s := EncodeLines(ls, "\n");
            && (forall j :: !BlankAt(s, j))
            && (ls != [] ==> s != "" && s[0] == 'd' && s[|s| - 1] == '\n')
  {
    if ls != [] {
      EncodeLinesHasNoBlank(ls[1..]);
      var head, tail := "data: " + ls[0] + "\n", EncodeLines(ls[1..], "\n");
      PrefixedLine(ls[0]);
      assert forall j :: 0 <= j < |head| - 1 ==> head[j] == ("data: " + ls[0])[j];
      var s := head + tail;
      forall j ensures !BlankAt(s, j) {
        assert j >= |head| ==> !BlankAt(tail, j - |head|);
      }
    }
  }

  lemma ClosedBlock(s: string)
    requires s != "" && s[|s| - 1] == '\n' && forall j :: !BlankAt(s, j)
    ensures IsBlock(s + "\n")
  {
    var b := s + "\n";
    assert forall j :: 0 <= j < |s| - 1 ==> (BlankAt(b, j) <==> BlankAt(s, j));
    FindBlankIs(b, |s| - 1);
  }

  lemma EncodeIsBlock(e: Event)
    requires e.Comment? ==> OneLine(e.note)
    ensures IsBlock(Encode(e, "\n"))
  {
    match e {
      case Data(text) =>
        SplitParts(text);
        EncodeLinesHasNoBlank(Split(text));
        ClosedBlock(EncodeLines(Split(text), "\n"));
      case Comment(note) =>
        var s := ":" + note + "\n";
        assert forall j :: 0 <= j < |s| - 1 ==> s[j] != '\n';
        ClosedBlock(s);
    }
  }

  lemma LinesCons(line: string, tail: string)
    requires OneLine(line) && CrFree(line)
    ensures Lines(line + "\n" + tail) == [line] + Lines(tail)
  {
    hide LineEnd;
    var s := line + "\n" + tail;
    LineEndIs(s, |line|);
    assert s[..|line|] == line && s[|line| + 1..] == tail;
    assert Chomp(line) == line;
    assert Lines(s) == [Chomp(s[..|line|])] + Lines(s[|line| + 1..]);
  }

  lemma NoLines()
    ensures Lines("") == []
  {
  }

  function Prefixed(ls: seq<string>): seq<string> {
    if ls == [] then [] else ["data: " + ls[0]] + Prefixed(ls[1..])
  }

  lemma {:induction false} LinesOfEncoded(ls: seq<string>)
    requires forall l <- ls :: OneLine(l) && CrFree(l)
    ensures Lines(EncodeLines(ls, "\n") + "\n") == Prefixed(ls) + [""]
  {
    hide Lines;
    if ls == [] {
      assert EncodeLines(ls, "\n") + "\n" == "" + "\n" + "";
      LinesCons("", "");
      NoLines();
    } else {
      var tail := EncodeLines(ls[1..], "\n") + "\n";
      LinesOfEncoded(ls[1..]);
      PrefixedLine(ls[0]);
      LinesCons("data: " + ls[0], tail);
      assert EncodeLines(ls, "\n") + "\n" == "data: " + ls[0] + "\n" + tail;
    }
  }

  lemma {:induction false} DataLinesCons(l: string, ls: seq<string>)
    ensures DataLines([l] + ls) == (if DataOf(l).Some? then [DataOf(l).value] else []) + DataLines(ls)
  {
    if ls == [] {
      assert [l] + ls == [l] && [l][..0] == [];
    } else {
      var n := |ls| - 1;
      DataLinesCons(l, ls[..n]);
      assert ([l] + ls)[..n + 1] == [l] + ls[..n];
    }
  }

  lemma DataOfPrefixed(l: string)
    ensures DataOf("data: " + l) == Some(l)
  {
    var line := "data: " + l;
    assert line[..5] == DATA && line[5..] == " " + l;
  }

  lemma {:induction false} DataLinesOfPrefixed(ls: seq<string>)
    ensures DataLines(Prefixed(ls) + [""]) == ls
  {
    if ls == [] {
      assert Prefixed(ls) + [""] == [""] && [""][..0] == [];
      assert DataOf("") == None;
    } else {
      hide DataLines, DataOf;
      var l := "data: " + ls[0];
      DataLinesOfPrefixed(ls[1..]);
      assert Prefixed(ls) + [""] == [l] + (Prefixed(ls[1..]) + [""]);
      DataLinesCons(l, Prefixed(ls[1..]) + [""]);
      DataOfPrefixed(ls[0]);
    }
  }

  /** A text comes back whole, a comment carries nothing. */
  lemma SseDataOfEncoded(e: Event)
    requires e.Data? ==> CrFree(e.text)
    requires e.Comment? ==> OneLine(e.note) && CrFree(e.note)
    ensures SseData(Encode(e, "\n")) == if e.Data? then Some(e.text) else None
  {
    match e {
      case Data(text) =>
        SplitParts(text);
        LinesOfEncoded(Split(text));
        DataLinesOfPrefixed(Split(text));
      case Comment(note) =>
        var line := ":" + note;
        assert Encode(e, "\n") == line + "\n" + "\n";
        LinesCons(line, "\n");
        assert "\n" == "" + "\n" + "";
        LinesCons("", "");
        DataLinesCons(line, [""]);
        DataLinesOfPrefixed([]);
        assert Prefixed([]) + [""] == [""] && line[0] != DATA[0];
    }
  }

  // ---------------------------------------------------------------- the whole stream

  function CleanBlocks(es: seq<Event>): seq<string> {
    if es == [] then [] else [Encode(Clean(es[0]), "\n")] + CleanBlocks(es[1..])
  }

  lemma {:induction false} StreamBlocks(es: seq<Event>, eol: string)
    requires Eol(eol) && forall e <- es :: e.Comment? ==> OneLine(e.note)
    ensures NoCr(EncodeAll(es, eol)) == Flatten(CleanBlocks(es))
    ensures forall b <- CleanBlocks(es) :: IsBlock(b)
    ensures Payloads(CleanBlocks(es)) == Texts(es)
  {
    hide Encode, IsBlock, SseData, NoCr;
    if es == [] {
      NoCrKeeps("");
    } else {
      var e := es[0];
      StreamBlocks(es[1..], eol);
      NoCrConcat(Encode(e, eol), EncodeAll(es[1..], eol));
      EncodeNoCr(e, eol);
      NoCrKeeps(if e.Data? then e.text else e.note);
      EncodeIsBlock(Clean(e));
      SseDataOfEncoded(Clean(e));
      assert CleanBlocks(es)[1..] == CleanBlocks(es[1..]);
    }
  }

  /** Texts sent as events, with either line end and comments in between, arrive in order and in
      full however the stream is cut, less their carriage returns; nothing is left over. */
  lemma SentTextsArrive(es: seq<Event>, eol: string, chunks: seq<string>)
    requires Eol(eol) && forall e <- es :: e.Comment? ==> OneLine(e.note)
    requires Flatten(chunks) == EncodeAll(es, eol)
    ensures Payloads(Blocks(NoCr(Flatten(chunks)))) == Texts(es)
    ensures Rest(NoCr(Flatten(chunks))) == ""
  {
    StreamBlocks(es, eol);
    BlocksUnique(CleanBlocks(es), "");
    assert Flatten(CleanBlocks(es)) + "" == Flatten(CleanBlocks(es));
  }
}
