/** Turning a delivery frame into the lines shown in a pane. */
module Render {
  import opened Wrappers
  import Text
  import Sse

  // ---------------------------------------------------------------- one field

  /** Characters a pane must not see. `format` is the Unicode category of format characters. */
  predicate Control(c: char, format: char -> bool) {
    || c < ' ' || c == '\U{7F}' || '\U{80}' <= c <= '\U{9F}' || format(c)
    || c == '\U{34F}' || '\U{FE00}' <= c <= '\U{FE0F}' || '\U{E0100}' <= c <= '\U{E01EF}'
  }

  /** The length of the run of kept characters at the front. */
  function RunLength(s: string, format: char -> bool): (n: nat)
    ensures n <= |s| && (n < |s| ==> Control(s[n], format)) && forall i :: 0 <= i < n ==> !Control(s[i], format)
  {
    if s == "" || Control(s[0], format) then 0 else 1 + RunLength(s[1..], format)
  }

  /** The maximal runs of kept characters. */
  function Runs(s: string, format: char -> bool): seq<string>
    decreases |s|
  {
    var n := RunLength(s, format);
    if s == "" then [] else if n == 0 then Runs(s[1..], format) else [s[..n]] + Runs(s[n..], format)
  }

  function Spaced(runs: seq<string>): string {
    if runs == [] then "" else if |runs| == 1 then runs[0] else Spaced(runs[..|runs| - 1]) + " " + runs[|runs| - 1]
  }

  function Sanitized(s: string, format: char -> bool): string {
    Spaced(Runs(s, format))
  }

  predicate Kept(s: string, format: char -> bool) {
    forall i :: 0 <= i < |s| ==> !Control(s[i], format)
  }

  lemma RunLengthIs(s: string, n: nat, format: char -> bool)
    requires n <= |s| && (n < |s| ==> Control(s[n], format)) && forall i :: 0 <= i < n ==> !Control(s[i], format)
    ensures RunLength(s, format) == n
  {
  }

  predicate EndsKept(s: string, format: char -> bool) {
    s != "" && !Control(s[|s| - 1], format)
  }

  function Extended(r: seq<string>, c: char, joins: bool): seq<string> {
    if joins && r != [] then r[..|r| - 1] + [r[|r| - 1] + [c]] else r + [[c]]
  }

  lemma {:induction false} RunsSnoc(s: string, c: char, format: char -> bool)
    ensures EndsKept(s, format) ==> Runs(s, format) != []
    ensures Runs(s + [c], format)
         == if Control(c, format) then Runs(s, format) else Extended(Runs(s, format), c, EndsKept(s, format))
    decreases |s|
  {
    hide Control, RunLength, Runs, Extended;
    var t := s + [c];
    var n := RunLength(s, format);
    if n == |s| {
      RunsWhole(s, format);
      if Control(c, format) {
        RunLengthIs(t, n, format);
        LoneControl(c, format);
        assert t[..n] == s && t[n..] == [c];
        RunsTake(t, n, format);
      } else {
        RunsWhole(t, format);
        ExtendedFirst(s, c);
        assert s == "" ==> t == [c];
      }
    } else {
      RunLengthIs(t, n, format);
      RunsTake(s, n, format);
      RunsTake(t, n, format);
      if n == 0 {
        RunsSnoc(s[1..], c, format);
        assert t[1..] == s[1..] + [c];
      } else {
        RunsSnoc(s[n..], c, format);
        assert t[n..] == s[n..] + [c] && t[..n] == s[..n];
        assert EndsKept(s[n..], format) == EndsKept(s, format);
        ExtendedCons(s[..n], Runs(s[n..], format), c, EndsKept(s, format));
        hide EndsKept;
      }
    }
  }

  lemma ExtendedCons(h: string, r: seq<string>, c: char, joins: bool)
    requires joins ==> r != []
    ensures Extended([h] + r, c, joins) == [h] + Extended(r, c, joins)
  {
    var e := [h] + r;
    assert joins ==> e[..|e| - 1] == [h] + r[..|r| - 1] && e[|e| - 1] == r[|r| - 1];
  }

  lemma ExtendedFirst(s: string, c: char)
    ensures Extended([], c, false) == [[c]] && Extended([s], c, true) == [s + [c]]
  {
  }

  lemma RunsWhole(s: string, format: char -> bool)
    requires Kept(s, format)
    ensures Runs(s, format) == if s == "" then [] else [s]
  {
    hide Control, RunLength;
    RunLengthIs(s, |s|, format);
    assert s[..|s|] == s && s[|s|..] == "";
    assert Runs("", format) == [];
  }

  lemma RunsTake(s: string, n: nat, format: char -> bool)
    requires s != "" && n == RunLength(s, format)
    ensures Runs(s, format) == if n == 0 then Runs(s[1..], format) else [s[..n]] + Runs(s[n..], format)
  {
  }

  lemma LoneControl(c: char, format: char -> bool)
    requires Control(c, format)
    ensures Runs([c], format) == []
  {
    hide Control, RunLength;
    RunLengthIs([c], 0, format);
    assert [c][1..] == "";
    assert Runs("", format) == [];
  }

  lemma {:induction false} RunsAreKept(s: string, format: char -> bool)
    ensures forall r <- Runs(s, format) :: r != "" && Kept(r, format)
    ensures Sse.Flatten(Runs(s, format)) == KeptOnly(s, format)
    decreases |s|
  {
    hide Control;
    var n := RunLength(s, format);
    if s != "" {
      if n == 0 {
        RunsAreKept(s[1..], format);
      } else {
        RunsAreKept(s[n..], format);
        KeptOnlyConcat(s[..n], s[n..], format);
        KeptOnlyKept(s[..n], format);
        assert s == s[..n] + s[n..];
        var r := Runs(s, format);
        assert r[0] == s[..n] && r[1..] == Runs(s[n..], format);
      }
    }
  }

  /** The field without the characters a pane must not see. */
  function KeptOnly(s: string, format: char -> bool): string {
    if s == "" then "" else (if Control(s[0], format) then "" else [s[0]]) + KeptOnly(s[1..], format)
  }

  lemma {:induction false} KeptOnlyConcat(a: string, b: string, format: char -> bool)
    ensures KeptOnly(a + b, format) == KeptOnly(a, format) + KeptOnly(b, format)
  {
    hide Control;
    if a == "" {
      assert a + b == b;
    } else {
      var t := a + b;
      assert t[0] == a[0] && t[1..] == a[1..] + b;
      KeptOnlyConcat(a[1..], b, format);
      var head := if Control(a[0], format) then "" else [a[0]];
      assert KeptOnly(t, format) == head + KeptOnly(t[1..], format);
      assert KeptOnly(a, format) == head + KeptOnly(a[1..], format);
      hide KeptOnly;
    }
  }

  lemma {:induction false} KeptOnlyKept(a: string, format: char -> bool)
    requires Kept(a, format)
    ensures KeptOnly(a, format) == a
  {
    hide Control;
    if a != "" {
      KeptOnlyKept(a[1..], format);
    }
  }

  lemma SpacedExtended(r: seq<string>, c: char, joins: bool)
    requires joins ==> r != []
    ensures Spaced(Extended(r, c, joins)) == Spaced(r) + (if joins || r == [] then "" else " ") + [c]
  {
    var e := Extended(r, c, joins);
    if joins {
      assert e[..|e| - 1] == r[..|r| - 1];
    } else if r != [] {
      assert e[..|e| - 1] == r;
    }
  }

  lemma SpacedEmptyIff(r: seq<string>)
    requires forall s <- r :: s != ""
    ensures Spaced(r) == "" <==> r == []
  {
    assert r != [] ==> r[0] in r;
  }

  /** The result is the kept runs of the field, joined by single spaces. */
  method SanitizeForPane(s: string, format: char -> bool) returns (out: string)
    ensures out == Sanitized(s, format)
  {
    hide Control, Runs, Spaced, Extended;
    out := "";
    EmptyField(format);
    assert s[..0] == "";
    var pendingSpace := false;
    for i := 0 to |s|
      invariant out == Spaced(Runs(s[..i], format))
      invariant pendingSpace <==> !EndsKept(s[..i], format) && out != ""
    {
      var c := s[i];
      assert s[..i + 1] == s[..i] + [c];
      RunsSnoc(s[..i], c, format);
      RunsAreKept(s[..i], format);
      SpacedEmptyIff(Runs(s[..i], format));
      if Control(c, format) {
        if out != "" {
          pendingSpace := true;
        }
      } else {
        SpacedExtended(Runs(s[..i], format), c, EndsKept(s[..i], format));
        if pendingSpace {
          out := out + " ";
          pendingSpace := false;
        }
        out := out + [c];
      }
    }
    assert s[..|s|] == s;
  }

  lemma EmptyField(format: char -> bool)
    ensures Spaced(Runs("", format)) == ""
  {
  }

  /** What is left holds no unseen character and no line feed. */
  lemma SanitizedIsClean(s: string, format: char -> bool)
    ensures forall c <- Sanitized(s, format) :: c == ' ' || !Control(c, format)
  {
    hide Control, Runs;
    RunsAreKept(s, format);
    SpacedOf(Runs(s, format), format);
  }

  lemma {:induction false} SpacedOf(runs: seq<string>, format: char -> bool)
    requires forall r <- runs :: Kept(r, format)
    ensures forall c <- Spaced(runs) :: c == ' ' || !Control(c, format)
  {
    hide Control;
    if runs != [] {
      assert runs[|runs| - 1] in runs;
      SpacedOf(runs[..|runs| - 1], format);
      assert Kept(runs[|runs| - 1], format);
    }
  }

  /** A field comes back as it was exactly when it holds nothing a pane must not see. */
  lemma SanitizedUnchangedIff(s: string, format: char -> bool)
    requires !format(' ')
    ensures Sanitized(s, format) == s <==> Kept(s, format)
  {
    assert !Control(' ', format);
    hide Control;
    SanitizedIsClean(s, format);
    if Kept(s, format) {
      RunLengthIs(s, |s|, format);
      assert s[..|s|] == s && s[|s|..] == "";
      assert Runs("", format) == [];
    } else {
      var i :| 0 <= i < |s| && Control(s[i], format);
      assert s[i] in s;
    }
  }

  lemma SanitizedIdempotent(s: string, format: char -> bool)
    requires !format(' ')
    ensures Sanitized(Sanitized(s, format), format) == Sanitized(s, format)
  {
    assert !Control(' ', format);
    hide Control, Sanitized;
    SanitizedIsClean(s, format);
    SanitizedUnchangedIff(Sanitized(s, format), format);
  }

  /** Fields on both sides of dropped characters are sanitized on their own, and one space stands for
      all that was dropped between them. */
  lemma {:induction false} RunsAcrossGap(s: string, gap: string, t: string, format: char -> bool)
    requires gap != "" && forall i :: 0 <= i < |gap| ==> Control(gap[i], format)
    ensures Runs(s + gap + t, format) == Runs(s, format) + Runs(t, format)
    decreases |t|, |gap|
  {
    hide Control, Runs, Extended;
    if t != "" {
      var n := |t| - 1;
      var u := s + gap + t[..n];
      RunsAcrossGap(s, gap, t[..n], format);
      assert s + gap + t == u + [t[n]] && t == t[..n] + [t[n]];
      RunsSnoc(u, t[n], format);
      RunsSnoc(t[..n], t[n], format);
      assert u[|u| - 1] == if n == 0 then gap[|gap| - 1] else t[..n][n - 1];
      ExtendedConcat(Runs(s, format), Runs(t[..n], format), t[n], EndsKept(t[..n], format));
    } else {
      var m := |gap| - 1;
      assert s + gap + t == (s + gap[..m]) + [gap[m]] && s + gap[..m] + "" == s + gap[..m];
      RunsSnoc(s + gap[..m], gap[m], format);
      EmptyRuns(format);
      if m > 0 {
        RunsAcrossGap(s, gap[..m], "", format);
      } else {
        assert s + gap[..m] == s;
      }
    }
  }

  lemma EmptyRuns(format: char -> bool)
    ensures Runs("", format) == []
  {
  }

  lemma ExtendedConcat(q: seq<string>, r: seq<string>, c: char, joins: bool)
    requires joins ==> r != []
    ensures Extended(q + r, c, joins) == q + Extended(r, c, joins)
  {
    var e := q + r;
    assert joins ==> e[..|e| - 1] == q + r[..|r| - 1] && e[|e| - 1] == r[|r| - 1];
  }

  lemma {:induction false} SpacedConcat(q: seq<string>, r: seq<string>)
    ensures Spaced(q + r) == if q == [] then Spaced(r) else if r == [] then Spaced(q) else Spaced(q) + " " + Spaced(r)
  {
    if r == [] {
      assert q + r == q;
    } else if q == [] {
      assert q + r == r;
    } else {
      var n := |r| - 1;
      assert (q + r)[..|q + r| - 1] == q + r[..n];
      SpacedConcat(q, r[..n]);
    }
  }

  lemma SanitizedAcrossGap(s: string, gap: string, t: string, format: char -> bool)
    requires gap != "" && forall i :: 0 <= i < |gap| ==> Control(gap[i], format)
    ensures var a, b := Sanitized(s, format), Sanitized(t, format);
            Sanitized(s + gap + t, format) == if a == "" then b else if b == "" then a else a + " " + b
  {
    hide Control, Runs, Spaced;
    RunsAcrossGap(s, gap, t, format);
    SpacedConcat(Runs(s, format), Runs(t, format));
    RunsAreKept(s, format);
    RunsAreKept(t, format);
    SpacedEmptyIff(Runs(s, format));
    SpacedEmptyIff(Runs(t, format));
  }

  // ---------------------------------------------------------------- a whole frame

  const MAX_ITEMS := 10

  datatype UnreadMessage = UnreadMessage(messageId: string, senderId: string, subject: string)

  datatype OpenTask = OpenTask(taskId: string, title: string, status: string)

  datatype Frame = Frame(
    reason: string,
    unreadCount: int,
    taskCount: int,
    unreadMessages: seq<UnreadMessage>,
    openTasks: seq<OpenTask>,
    unassignedCount: Option<int>,
    prompt: Option<string>)

  function Signed(n: int): string {
    if n < 0 then "-" + Text.Decimal(-n) else Text.Decimal(n)
  }

  function Tag(): string { "[agent-mcp delivery] " }

  predicate IsDirective(f: Frame) { f.reason == "directive_due" || f.reason == "poke_due" }

  function DirectiveLine(f: Frame, format: char -> bool): string {
    Tag() + (if f.reason == "poke_due" then "Directive" else "Scheduled directive due") + ": "
    + (if f.prompt.Some? then Sanitized(f.prompt.value, format) else "")
  }

  function Headline(f: Frame): string {
    if f.reason == "unread_messages" then Signed(f.unreadCount) + " unread message(s) waiting."
    else if f.reason == "unfinished_tasks" then Signed(f.taskCount) + " open task(s) assigned to you."
    else if f.reason == "unassigned_tasks" then
      Signed(if f.unassignedCount.Some? then f.unassignedCount.value else 0) + " unassigned open task(s) in the pool."
    else Signed(f.unreadCount) + " unread message(s), " + Signed(f.taskCount) + " open task(s)."
  }

  function MessageLine(m: UnreadMessage, format: char -> bool): string {
    "  - #" + Sanitized(m.messageId, format) + " from " + Sanitized(m.senderId, format) + ": " + Sanitized(m.subject, format)
  }

  function TaskLine(t: OpenTask, format: char -> bool): string {
    "  - " + Sanitized(t.taskId, format) + " [" + Sanitized(t.status, format) + "]: " + Sanitized(t.title, format)
  }

  function MoreLine(n: nat): string { "  \U{2026} and " + Text.Decimal(n) + " more" }

  function MessagesTitle(): string { "Unread messages (call get_agent_messages to read the body):" }

  function TasksTitle(): string { "Open tasks (call view_tasks for details):" }

  function Footer(): string { FooterHead() + FooterTail() }

  function FooterHead(): string { "(Fallback nudge \U{2014} act via your agent-mcp" }

  function FooterTail(): string { " tools; this marks nothing read or done.)" }

  function Min(a: nat, b: nat): nat { if a < b then a else b }

  function MessageLines(ms: seq<UnreadMessage>, n: nat, format: char -> bool): (ls: seq<string>)
    requires n <= |ms|
    ensures |ls| == n
  {
    if n == 0 then [] else MessageLines(ms, n - 1, format) + [MessageLine(ms[n - 1], format)]
  }

  function TaskLines(ts: seq<OpenTask>, n: nat, format: char -> bool): (ls: seq<string>)
    requires n <= |ts|
    ensures |ls| == n
  {
    if n == 0 then [] else TaskLines(ts, n - 1, format) + [TaskLine(ts[n - 1], format)]
  }

  /** A list of `total` items under its title, with those shown and a count of the others. */
  function Section(title: string, shown: seq<string>, total: nat): seq<string> {
    if total == 0 then []
    else [title] + shown + (if total > MAX_ITEMS then [MoreLine(total - MAX_ITEMS)] else [])
  }

  function FrameLines(f: Frame, format: char -> bool): (ls: seq<string>)
    ensures ls != []
  {
    if IsDirective(f) then [DirectiveLine(f, format)]
    else
      [Tag() + Headline(f)]
      + Section(MessagesTitle(), MessageLines(f.unreadMessages, Min(|f.unreadMessages|, MAX_ITEMS), format), |f.unreadMessages|)
      + Section(TasksTitle(), TaskLines(f.openTasks, Min(|f.openTasks|, MAX_ITEMS), format), |f.openTasks|)
      + [Footer()]
  }

  method MessageSection(ms: seq<UnreadMessage>, format: char -> bool) returns (lines: seq<string>)
    ensures lines == Section(MessagesTitle(), MessageLines(ms, Min(|ms|, MAX_ITEMS), format), |ms|)
  {
    hide MessagesTitle, MoreLine, Sanitized;
    lines := [];
    if ms != [] {
      lines := [MessagesTitle()];
      for i := 0 to Min(|ms|, MAX_ITEMS)
        invariant lines == [MessagesTitle()] + MessageLines(ms, i, format)
      {
        var id := SanitizeForPane(ms[i].messageId, format);
        var sender := SanitizeForPane(ms[i].senderId, format);
        var subject := SanitizeForPane(ms[i].subject, format);
        lines := lines + ["  - #" + id + " from " + sender + ": " + subject];
      }
      if |ms| > MAX_ITEMS {
        lines := lines + [MoreLine(|ms| - MAX_ITEMS)];
      }
    }
  }

  method TaskSection(ts: seq<OpenTask>, format: char -> bool) returns (lines: seq<string>)
    ensures lines == Section(TasksTitle(), TaskLines(ts, Min(|ts|, MAX_ITEMS), format), |ts|)
  {
    hide TasksTitle, MoreLine, Sanitized;
    lines := [];
    if ts != [] {
      lines := [TasksTitle()];
      for i := 0 to Min(|ts|, MAX_ITEMS)
        invariant lines == [TasksTitle()] + TaskLines(ts, i, format)
      {
        var id := SanitizeForPane(ts[i].taskId, format);
        var status := SanitizeForPane(ts[i].status, format);
        var title := SanitizeForPane(ts[i].title, format);
        lines := lines + ["  - " + id + " [" + status + "]: " + title];
      }
      if |ts| > MAX_ITEMS {
        lines := lines + [MoreLine(|ts| - MAX_ITEMS)];
      }
    }
  }

  method RenderSkinny(f: Frame, format: char -> bool) returns (out: string)
    ensures out == Sse.Join(FrameLines(f, format))
  {
    hide Sanitized, Headline, Section, MessageLines, TaskLines, Tag, MessagesTitle, TasksTitle, Footer;
    if IsDirective(f) {
      var prompt := "";
      if f.prompt.Some? {
        prompt := SanitizeForPane(f.prompt.value, format);
      }
      return Tag() + (if f.reason == "poke_due" then "Directive" else "Scheduled directive due") + ": " + prompt;
    }
    hide IsDirective;
    var lines := [Tag() + Headline(f)];
    var messages := MessageSection(f.unreadMessages, format);
    var tasks := TaskSection(f.openTasks, format);
    lines := lines + messages + tasks + [Footer()];
    return Sse.Join(lines);
  }

  // ---------------------------------------------------------------- what the pane gets

  /** The characters the fixed texts are made of. */
  predicate Printable(c: char) {
    ' ' <= c <= '~' || c == '\U{2014}' || c == '\U{2026}'
  }

  predicate Plain(s: string) {
    forall c <- s :: Printable(c)
  }

  predicate Seen(s: string, format: char -> bool) {
    forall c <- s :: Printable(c) || !Control(c, format)
  }

  lemma DecimalIsPlain(n: nat)
    ensures Plain(Text.Decimal(n))
  {
  }

  lemma SignedIsPlain(n: int)
    ensures Plain(Signed(n))
  {
    hide Text.Decimal;
    DecimalIsPlain(if n < 0 then -n else n);
  }

  lemma PlainConcat(a: string, b: string)
    requires Plain(a) && Plain(b)
    ensures Plain(a + b)
  {
  }

  lemma TitleHalves()
    ensures MessagesTitle() == "Unread messages (call get_agen" + "t_messages to read the body):"
  {
  }

  lemma TitleHalvesArePlain()
    ensures Plain("Unread messages (call get_agen") && Plain("t_messages to read the body):")
  {
  }

  lemma MessagesTitleIsPlain()
    ensures Plain(MessagesTitle())
  {
    hide Plain, MessagesTitle;
    TitleHalves();
    TitleHalvesArePlain();
    PlainConcat("Unread messages (call get_agen", "t_messages to read the body):");
  }

  lemma FooterHeadIsPlain()
    ensures Plain(FooterHead())
  {
  }

  lemma FooterTailIsPlain()
    ensures Plain(FooterTail())
  {
  }

  lemma FooterIsPlain()
    ensures Plain(Footer())
  {
    hide FooterHead, FooterTail, Plain;
    FooterHeadIsPlain();
    FooterTailIsPlain();
    PlainConcat(FooterHead(), FooterTail());
  }

  lemma TasksTitleIsPlain()
    ensures Plain(TasksTitle())
  {
  }

  lemma HeadlineIsPlain(f: Frame)
    ensures Plain(Headline(f))
  {
    hide Plain, Signed;
    var u, t, p := Signed(f.unreadCount), Signed(f.taskCount), Signed(if f.unassignedCount.Some? then f.unassignedCount.value else 0);
    SignedIsPlain(f.unreadCount);
    SignedIsPlain(f.taskCount);
    SignedIsPlain(if f.unassignedCount.Some? then f.unassignedCount.value else 0);
    WaitingTextsArePlain();
    TaskTextsArePlain();
    PoolTextIsPlain();
    PlainConcat(u, " unread message(s) waiting.");
    PlainConcat(t, " open task(s) assigned to you.");
    PlainConcat(p, " unassigned open task(s) in the pool.");
    PlainConcat(u, " unread message(s), ");
    PlainConcat(u + " unread message(s), ", t);
    PlainConcat(u + " unread message(s), " + t, " open task(s).");
  }

  lemma WaitingTextsArePlain()
    ensures Plain(" unread message(s) waiting.") && Plain(" unread message(s), ")
  {
  }

  lemma TaskTextsArePlain()
    ensures Plain(" open task(s) assigned to you.") && Plain(" open task(s).")
  {
  }

  lemma PoolTextIsPlain()
    ensures Plain(" unassigned open task(s) in the pool.")
  {
  }

  lemma SeenConcat(a: string, b: string, format: char -> bool)
    requires Seen(a, format) && Seen(b, format)
    ensures Seen(a + b, format)
  {
    hide Control;
  }

  lemma SanitizedIsSeen(s: string, format: char -> bool)
    ensures Seen(Sanitized(s, format), format)
  {
    hide Sanitized, Control;
    SanitizedIsClean(s, format);
  }

  lemma PlainIsSeen(s: string, format: char -> bool)
    requires Plain(s)
    ensures Seen(s, format)
  {
  }

  /** Fixed text and fields by turns. */
  lemma PiecesAreSeen(a: string, x: string, b: string, y: string, c: string, z: string, format: char -> bool)
    requires Plain(a) && Plain(b) && Plain(c)
    ensures Seen(a + Sanitized(x, format) + b + Sanitized(y, format) + c + Sanitized(z, format), format)
  {
    hide Sanitized, Control;
    SanitizedIsSeen(x, format);
    SanitizedIsSeen(y, format);
    SanitizedIsSeen(z, format);
  }

  lemma MessageLineIsSeen(m: UnreadMessage, format: char -> bool)
    ensures Seen(MessageLine(m, format), format)
  {
    hide Sanitized, Control;
    PiecesAreSeen("  - #", m.messageId, " from ", m.senderId, ": ", m.subject, format);
  }

  lemma TaskLineIsSeen(t: OpenTask, format: char -> bool)
    ensures Seen(TaskLine(t, format), format)
  {
    hide Sanitized, Control;
    PiecesAreSeen("  - ", t.taskId, " [", t.status, "]: ", t.title, format);
  }

  lemma DirectiveLineIsSeen(f: Frame, format: char -> bool)
    ensures Seen(DirectiveLine(f, format), format)
  {
    hide Sanitized, Control, Tag, Plain;
    var kind := if f.reason == "poke_due" then "Directive" else "Scheduled directive due";
    var head := Tag() + kind + ": ";
    DirectiveTextsArePlain();
    TagIsPlain();
    PlainConcat(Tag(), kind);
    PlainConcat(Tag() + kind, ": ");
    PlainIsSeen(head, format);
    if f.prompt.Some? {
      SanitizedIsSeen(f.prompt.value, format);
      SeenConcat(head, Sanitized(f.prompt.value, format), format);
    } else {
      assert DirectiveLine(f, format) == head + "" == head;
    }
  }

  lemma DirectiveTextsArePlain()
    ensures Plain("Directive") && Plain("Scheduled directive due") && Plain(": ")
  {
  }

  lemma MoreLineIsPlain(n: nat)
    ensures Plain(MoreLine(n))
  {
    hide Text.Decimal;
    DecimalIsPlain(n);
    assert Plain("  \U{2026} and ") && Plain(" more");
  }

  lemma {:induction false} ItemsAreSeen(ms: seq<UnreadMessage>, ts: seq<OpenTask>, n: nat, k: nat, format: char -> bool)
    requires n <= |ms| && k <= |ts|
    ensures forall l <- MessageLines(ms, n, format) :: Seen(l, format)
    ensures forall l <- TaskLines(ts, k, format) :: Seen(l, format)
    decreases n + k
  {
    hide MessageLine, TaskLine, Seen;
    if n > 0 {
      ItemsAreSeen(ms, ts, n - 1, k, format);
      MessageLineIsSeen(ms[n - 1], format);
    } else if k > 0 {
      ItemsAreSeen(ms, ts, n, k - 1, format);
      TaskLineIsSeen(ts[k - 1], format);
    }
  }

  lemma SectionIsSeen(title: string, shown: seq<string>, total: nat, format: char -> bool)
    requires Plain(title) && forall l <- shown :: Seen(l, format)
    ensures forall l <- Section(title, shown, total) :: Seen(l, format)
  {
    hide Plain, Seen, MoreLine;
    PlainIsSeen(title, format);
    if total > MAX_ITEMS {
      MoreLineIsPlain(total - MAX_ITEMS);
      PlainIsSeen(MoreLine(total - MAX_ITEMS), format);
    }
  }

  lemma LinesAreSeen(f: Frame, format: char -> bool)
    ensures forall l <- FrameLines(f, format) :: Seen(l, format)
  {
    hide Plain, Seen, Tag, Headline, Footer, Section, MessageLines, TaskLines, DirectiveLine, MessagesTitle, TasksTitle;
    DirectiveLineIsSeen(f, format);
    HeadlineIsPlain(f);
    TagIsPlain();
    PlainConcat(Tag(), Headline(f));
    PlainIsSeen(Tag() + Headline(f), format);
    FooterIsPlain();
    PlainIsSeen(Footer(), format);
    var n, k := Min(|f.unreadMessages|, MAX_ITEMS), Min(|f.openTasks|, MAX_ITEMS);
    ItemsAreSeen(f.unreadMessages, f.openTasks, n, k, format);
    MessagesTitleIsPlain();
    SectionIsSeen(MessagesTitle(), MessageLines(f.unreadMessages, n, format), |f.unreadMessages|, format);
    TasksTitleIsPlain();
    SectionIsSeen(TasksTitle(), TaskLines(f.openTasks, k, format), |f.openTasks|, format);
  }

  lemma TagIsPlain()
    ensures Plain(Tag())
  {
  }

  /** The number of lines a list of `n` items takes. */
  function SectionSize(n: nat): nat {
    if n == 0 then 0 else 1 + Min(n, MAX_ITEMS) + if n > MAX_ITEMS then 1 else 0
  }

  /** Whatever the fields hold, splitting the rendering at its line feeds gives back the lines it was
      made of, and their number depends on the lengths of the two lists alone. */
  lemma RenderedLines(f: Frame, format: char -> bool)
    ensures Sse.Split(Sse.Join(FrameLines(f, format))) == FrameLines(f, format)
    ensures |FrameLines(f, format)|
         == if IsDirective(f) then 1 else 2 + SectionSize(|f.unreadMessages|) + SectionSize(|f.openTasks|)
  {
    hide FrameLines, Seen;
    LineCount(f, format);
    LinesAreSeen(f, format);
    forall l <- FrameLines(f, format) ensures Sse.OneLine(l) {
      SeenIsOneLine(l, format);
    }
    Sse.SplitOfJoin(FrameLines(f, format));
  }

  lemma LineCount(f: Frame, format: char -> bool)
    ensures |FrameLines(f, format)|
         == if IsDirective(f) then 1 else 2 + SectionSize(|f.unreadMessages|) + SectionSize(|f.openTasks|)
  {
    hide Tag, Headline, Footer, MessageLines, TaskLines, DirectiveLine, MessagesTitle, TasksTitle, MoreLine;
  }

  lemma SeenIsOneLine(l: string, format: char -> bool)
    requires Seen(l, format)
    ensures Sse.OneLine(l)
  {
    assert Control('\n', format);
  }

  /** The pane sees no control, format or selector character but the line feeds, whatever the fields
      hold, as long as the fixed texts are made of none. */
  lemma OnlyLineFeeds(f: Frame, format: char -> bool)
    requires forall c: char :: Printable(c) ==> !format(c)
    ensures forall c <- Sse.Join(FrameLines(f, format)) :: c == '\n' || !Control(c, format)
  {
    hide FrameLines;
    LinesAreSeen(f, format);
    JoinIsSeen(FrameLines(f, format), format);
    forall c <- Sse.Join(FrameLines(f, format)) | c != '\n' ensures !Control(c, format) {
      if Printable(c) {
        assert !format(c);
      }
    }
  }

  lemma {:induction false} JoinIsSeen(ls: seq<string>, format: char -> bool)
    requires ls != [] && forall l <- ls :: Seen(l, format)
    ensures forall c <- Sse.Join(ls) :: c == '\n' || Printable(c) || !Control(c, format)
  {
    hide Control, Printable;
    assert Seen(ls[0], format);
    if |ls| > 1 {
      JoinIsSeen(ls[1..], format);
    }
  }

  // ---------------------------------------------------------------- what each line says

  /** The characters a pane must not see, by their codes: control characters, the grapheme joiner, the
      two blocks of variation selectors, and format characters. */
  lemma ControlIff(c: char, format: char -> bool)
    ensures Control(c, format) <==>
              var n := c as int;
              n < 32 || 127 <= n < 160 || n == 847 || 65024 <= n <= 65039 || 917760 <= n <= 917999 || format(c)
  {
  }

  lemma KeptFieldStays(s: string, format: char -> bool)
    requires !format(' ') && Kept(s, format)
    ensures Sanitized(s, format) == s
  {
    SanitizedUnchangedIff(s, format);
  }

  /** A message's line names it, its sender and its subject, in this order. */
  lemma MessageLineSays(m: UnreadMessage, format: char -> bool)
    requires !format(' ') && Kept(m.messageId, format) && Kept(m.senderId, format) && Kept(m.subject, format)
    ensures MessageLine(m, format) == "  - #" + m.messageId + " from " + m.senderId + ": " + m.subject
  {
    hide Sanitized;
    KeptFieldStays(m.messageId, format);
    KeptFieldStays(m.senderId, format);
    KeptFieldStays(m.subject, format);
  }

  /** A task's line names it, its status and its title, in this order. */
  lemma TaskLineSays(t: OpenTask, format: char -> bool)
    requires !format(' ') && Kept(t.taskId, format) && Kept(t.status, format) && Kept(t.title, format)
    ensures TaskLine(t, format) == "  - " + t.taskId + " [" + t.status + "]: " + t.title
  {
    hide Sanitized;
    KeptFieldStays(t.taskId, format);
    KeptFieldStays(t.status, format);
    KeptFieldStays(t.title, format);
  }

  /** Which line of the rendering says what: the headline, then for each list its title, its first ten
      items in order and the number of the others, then the closing line. */
  lemma FrameLinesAre(f: Frame, format: char -> bool)
    requires !IsDirective(f)
    ensures var ls := FrameLines(f, format);
            var m, t := |f.unreadMessages|, |f.openTasks|;
            var after := 1 + (if m == 0 then 0 else 1 + Min(m, 10) + if m > 10 then 1 else 0);
            && ls[0] == "[agent-mcp delivery] " + Headline(f)
            && (m > 0 ==> ls[1] == MessagesTitle() && forall i :: 0 <= i < m && i < 10 ==> ls[2 + i] == MessageLine(f.unreadMessages[i], format))
            && (m > 10 ==> ls[12] == MoreLine(m - 10))
            && (t > 0 ==> ls[after] == TasksTitle() && forall i :: 0 <= i < t && i < 10 ==> ls[after + 1 + i] == TaskLine(f.openTasks[i], format))
            && (t > 10 ==> ls[after + 11] == MoreLine(t - 10))
            && ls[|ls| - 1] == Footer()
  {
    hide Headline, MessageLine, TaskLine, MoreLine, MessagesTitle, TasksTitle, Footer, IsDirective;
    var ms, ts := f.unreadMessages, f.openTasks;
    MessageLinesAre(ms, Min(|ms|, MAX_ITEMS), format);
    TaskLinesAre(ts, Min(|ts|, MAX_ITEMS), format);
    hide MessageLines, TaskLines;
  }

  lemma {:induction false} MessageLinesAre(ms: seq<UnreadMessage>, n: nat, format: char -> bool)
    requires n <= |ms|
    ensures forall i :: 0 <= i < n ==> MessageLines(ms, n, format)[i] == MessageLine(ms[i], format)
  {
    hide MessageLine;
    if n > 0 {
      MessageLinesAre(ms, n - 1, format);
    }
  }

  lemma {:induction false} TaskLinesAre(ts: seq<OpenTask>, n: nat, format: char -> bool)
    requires n <= |ts|
    ensures forall i :: 0 <= i < n ==> TaskLines(ts, n, format)[i] == TaskLine(ts[i], format)
  {
    hide TaskLine;
    if n > 0 {
      TaskLinesAre(ts, n - 1, format);
    }
  }

  /** What the headline counts, by the frame's reason. */
  lemma HeadlineSays(f: Frame)
    ensures f.reason == "unread_messages" ==> Headline(f) == Signed(f.unreadCount) + " unread message(s) waiting."
    ensures f.reason == "unfinished_tasks" ==> Headline(f) == Signed(f.taskCount) + " open task(s) assigned to you."
    ensures f.reason == "unassigned_tasks" ==>
              Headline(f) == Signed(match f.unassignedCount case Some(n) => n case None => 0) + " unassigned open task(s) in the pool."
    ensures f.reason != "unread_messages" && f.reason != "unfinished_tasks" && f.reason != "unassigned_tasks" ==>
              Headline(f) == Signed(f.unreadCount) + " unread message(s), " + Signed(f.taskCount) + " open task(s)."
  {
    hide Signed;
    assert "unfinished_tasks"[2] != "unassigned_tasks"[2] && "unread_messages"[2] != "unfinished_tasks"[2] && "unread_messages"[2] != "unassigned_tasks"[2];
  }

  /** A directive's one line holds its prompt; a poke is told from a scheduled one. */
  lemma DirectiveLineSays(f: Frame, prompt: string, format: char -> bool)
    requires f.prompt == Some(prompt) && !format(' ') && Kept(prompt, format)
    ensures f.reason == "poke_due" ==> FrameLines(f, format) == ["[agent-mcp delivery] " + "Directive" + ": " + prompt]
    ensures f.reason == "directive_due" ==> FrameLines(f, format) == ["[agent-mcp delivery] " + "Scheduled directive due" + ": " + prompt]
  {
    hide Sanitized;
    KeptFieldStays(prompt, format);
    assert |"poke_due"| != |"directive_due"|;
  }

  /** A count is written as its decimal numeral, behind a minus sign exactly when it is negative. */
  lemma SignedReads(n: int)
    ensures n >= 0 ==> Text.AllDigits(Signed(n)) && Text.Value(Signed(n)) == n
    ensures n < 0 ==> Signed(n)[0] == '-' && Text.AllDigits(Signed(n)[1..]) && Text.Value(Signed(n)[1..]) == -n
  {
    Text.DecimalValue(if n < 0 then -n else n);
    if n < 0 {
      assert Signed(n)[1..] == Text.Decimal(-n);
    }
  }
}
