/** The bracket pre-scan that rejects deeply nested request bodies, against the tree the text
    denotes. */
module JsonDepth {

  const MAX_NESTING_DEPTH := 200

  // ---------------------------------------------------------------- JSON texts, RFC 8259 sections 2 to 7

  /** One character of a string literal, as written. */
  datatype Piece =
    | Plain(c: char)
    | Escape(c: char)
    | Unicode(hex: string)

  /** A JSON value together with everything its text leaves open: the white space around each
      token and the way each string and number is written. */
  datatype Json =
    | Literal(text: string)
    | Number(text: string)
    | Str(pieces: seq<Piece>)
    | Array(pad: string, items: Items)
    | Object(pad: string, members: Members)

  datatype Items = NoItems | Item(before: string, value: Json, after: string, rest: Items)

  datatype Members =
    | NoMembers
    | Member(before: string, key: seq<Piece>, afterKey: string, beforeValue: string, value: Json, after: string, rest: Members)

  predicate WhiteSpace(s: string) {
    forall c <- s :: c == ' ' || c == '\t' || c == '\n' || c == '\r'
  }

  predicate PieceOk(p: Piece) {
    match p
    case Plain(c) => c != '"' && c != '\\' && ' ' <= c
    case Escape(c) => c in "\"\\/bfnrt"
    case Unicode(hex) => |hex| == 4 && forall c <- hex :: '0' <= c <= '9' || 'a' <= c <= 'f' || 'A' <= c <= 'F'
  }

  predicate PiecesOk(ps: seq<Piece>) {
    forall p <- ps :: PieceOk(p)
  }

  predicate Derives(v: Json) {
    match v
    case Literal(text) => text == "true" || text == "false" || text == "null"
    case Number(text) => text != [] && forall c <- text :: c in "0123456789+-.eE"
    case Str(pieces) => PiecesOk(pieces)
    case Array(pad, items) => WhiteSpace(pad) && ItemsDerive(items)
    case Object(pad, members) => WhiteSpace(pad) && MembersDerive(members)
  }

  predicate ItemsDerive(items: Items) {
    items.Item? ==>
      WhiteSpace(items.before) && Derives(items.value) && WhiteSpace(items.after) && ItemsDerive(items.rest)
  }

  predicate MembersDerive(members: Members) {
    members.Member? ==>
      && WhiteSpace(members.before) && PiecesOk(members.key) && WhiteSpace(members.afterKey)
      && WhiteSpace(members.beforeValue) && Derives(members.value) && WhiteSpace(members.after)
      && MembersDerive(members.rest)
  }

  function PieceText(p: Piece): string {
    match p
    case Plain(c) => [c]
    case Escape(c) => ['\\', c]
    case Unicode(hex) => ['\\', 'u'] + hex
  }

  function PiecesText(ps: seq<Piece>): string {
    if ps == [] then [] else PieceText(ps[0]) + PiecesText(ps[1..])
  }

  function StringText(ps: seq<Piece>): string {
    ['"'] + (PiecesText(ps) + ['"'])
  }

  function ValueText(v: Json): string {
    match v
    case Literal(text) => text
    case Number(text) => text
    case Str(pieces) => StringText(pieces)
    case Array(pad, items) => ['['] + (pad + (ItemsText(items) + [']']))
    case Object(pad, members) => ['{'] + (pad + (MembersText(members) + ['}']))
  }

  function ItemsText(items: Items): string {
    match items
    case NoItems => []
    case Item(before, value, after, rest) =>
      before + (ValueText(value) + (after + ((if rest.Item? then "," else "") + ItemsText(rest))))
  }

  function MembersText(members: Members): string {
    match members
    case NoMembers => []
    case Member(before, key, afterKey, beforeValue, value, after, rest) =>
      before + (StringText(key) + (afterKey + (":" + (beforeValue + (ValueText(value)
      + (after + ((if rest.Member? then "," else "") + MembersText(rest))))))))
  }

  /** A whole text: a value with white space on either side. */
  function DocumentText(before: string, v: Json, after: string): string {
    before + (ValueText(v) + after)
  }

  // ---------------------------------------------------------------- depth of the tree

  function Max(a: nat, b: nat): nat { if a < b then b else a }

  function Depth(v: Json): nat {
    match v
    case Array(_, items) => 1 + ItemsDepth(items)
    case Object(_, members) => 1 + MembersDepth(members)
    case _ => 0
  }

  function ItemsDepth(items: Items): nat {
    match items
    case NoItems => 0
    case Item(_, value, _, rest) => Max(Depth(value), ItemsDepth(rest))
  }

  function MembersDepth(members: Members): nat {
    match members
    case NoMembers => 0
    case Member(_, _, _, _, value, _, rest) => Max(Depth(value), MembersDepth(rest))
  }

  // ---------------------------------------------------------------- the scanner

  datatype State = TooDeep | At(depth: nat, inString: bool, escaped: bool)

  function Step(s: State, ch: char): State {
    match s
    case TooDeep => TooDeep
    case At(depth, inString, escaped) =>
      if inString then
        if escaped then At(depth, true, false)
        else if ch == '\\' then At(depth, true, true)
        else if ch == '"' then At(depth, false, escaped)
        else s
      else if ch == '"' then At(depth, true, escaped)
      else if ch == '{' || ch == '[' then
        if depth + 1 > MAX_NESTING_DEPTH then TooDeep else At(depth + 1, false, escaped)
      else if ch == '}' || ch == ']' then At(if depth == 0 then 0 else depth - 1, false, escaped)
      else s
  }

  function Scan(s: State, text: string): State
    decreases |text|
  {
    if text == [] then s else Scan(Step(s, text[0]), text[1..])
  }

  function Outside(depth: nat): State { At(depth, false, false) }

  function Inside(depth: nat): State { At(depth, true, false) }

  /** The scan as it runs, with the early return. */
  method ExceedsMaxNestingDepth(raw: string) returns (exceeds: bool)
    ensures exceeds <==> Scan(Outside(0), raw) == TooDeep
  {
    var depth: nat := 0;
    var inString, escaped := false, false;
    for i := 0 to |raw|
      invariant Scan(Outside(0), raw) == Scan(At(depth, inString, escaped), raw[i..])
    {
      var ch := raw[i];
      assert raw[i..][1..] == raw[i + 1..];
      if inString {
        if escaped {
          escaped := false;
        } else if ch == '\\' {
          escaped := true;
        } else if ch == '"' {
          inString := false;
        }
        continue;
      }
      if ch == '"' {
        inString := true;
      } else if ch == '{' || ch == '[' {
        depth := depth + 1;
        if depth > MAX_NESTING_DEPTH {
          TooDeepStays(raw[i + 1..]);
          return true;
        }
      } else if ch == '}' || ch == ']' {
        depth := if depth == 0 then 0 else depth - 1;
      }
    }
    return false;
  }

  lemma {:induction false} TooDeepStays(text: string)
    ensures Scan(TooDeep, text) == TooDeep
  {
    if text != [] {
      TooDeepStays(text[1..]);
    }
  }

  /** In a text that is no JSON, a closing bracket without an opening one counts for nothing. */
  lemma StrayCloseIgnored(close: char, rest: string)
    requires close == ']' || close == '}'
    ensures Scan(Outside(0), [close] + rest) == Scan(Outside(0), rest)
  {
    ScanConcat(Outside(0), [close], rest);
    ScanChar(Outside(0), close);
  }

  lemma {:induction false} ScanConcat(s: State, a: string, b: string)
    ensures Scan(s, a + b) == Scan(Scan(s, a), b)
    decreases |a|
  {
    if a == [] {
      assert a + b == b;
    } else {
      assert (a + b)[1..] == a[1..] + b;
      ScanConcat(Step(s, a[0]), a[1..], b);
    }
  }

  lemma ScanChar(s: State, c: char)
    ensures Scan(s, [c]) == Step(s, c)
  {
    assert [c][1..] == [];
  }

  // ---------------------------------------------------------------- scanning tokens

  /** Text outside strings that holds no quote and no bracket. */
  predicate Flat(s: string) {
    forall c <- s :: FlatChar(c)
  }

  predicate FlatChar(c: char) {
    c != '"' && c != '{' && c != '[' && c != '}' && c != ']'
  }

  lemma TailMembers(s: string)
    requires s != []
    ensures s[0] in s && forall c <- s[1..] :: c in s
  {
  }

  lemma {:induction false} ScanFlat(d: nat, s: string)
    requires Flat(s)
    ensures Scan(Outside(d), s) == Outside(d)
  {
    if s != [] {
      TailMembers(s);
      ScanFlat(d, s[1..]);
    }
  }

  lemma {:induction false} ScanHex(d: nat, s: string)
    requires forall c <- s :: c != '"' && c != '\\'
    ensures Scan(Inside(d), s) == Inside(d)
  {
    if s != [] {
      TailMembers(s);
      ScanHex(d, s[1..]);
    }
  }

  lemma ScanPiece(d: nat, p: Piece)
    requires PieceOk(p)
    ensures Scan(Inside(d), PieceText(p)) == Inside(d)
  {
    match p
    case Plain(c) => ScanChar(Inside(d), c);
    case Escape(c) => ScanConcat(Inside(d), ['\\'], [c]); ScanChar(Inside(d), '\\'); ScanChar(At(d, true, true), c);
      assert ['\\'] + [c] == PieceText(p);
    case Unicode(hex) =>
      ScanConcat(Inside(d), ['\\'], ['u']);
      ScanChar(Inside(d), '\\');
      ScanChar(At(d, true, true), 'u');
      assert ['\\'] + ['u'] == ['\\', 'u'];
      ScanConcat(Inside(d), ['\\', 'u'], hex);
      ScanHex(d, hex);
  }

  lemma {:induction false} ScanPieces(d: nat, ps: seq<Piece>)
    requires PiecesOk(ps)
    ensures Scan(Inside(d), PiecesText(ps)) == Inside(d)
  {
    if ps != [] {
      ScanPiece(d, ps[0]);
      ScanConcat(Inside(d), PieceText(ps[0]), PiecesText(ps[1..]));
      ScanPieces(d, ps[1..]);
    }
  }

  lemma ScanString(d: nat, ps: seq<Piece>)
    requires PiecesOk(ps)
    ensures Scan(Outside(d), StringText(ps)) == Outside(d)
  {
    ScanConcat(Outside(d), ['"'], PiecesText(ps) + ['"']);
    ScanChar(Outside(d), '"');
    ScanConcat(Inside(d), PiecesText(ps), ['"']);
    ScanPieces(d, ps);
    ScanChar(Inside(d), '"');
  }

  // ---------------------------------------------------------------- scanning values

  /** Where the scan stands after something of the given depth, started at depth `d`. */
  function After(d: nat, depth: nat): State {
    if d + depth > MAX_NESTING_DEPTH then TooDeep else Outside(d)
  }

  /** Scanning in two parts, the first of which does not leave depth `d`. */
  lemma Skip(d: nat, flat: string, rest: string)
    requires Flat(flat)
    ensures Scan(Outside(d), flat + rest) == Scan(Outside(d), rest)
  {
    ScanConcat(Outside(d), flat, rest);
    ScanFlat(d, flat);
  }

  lemma ScalarIsFlat(v: Json)
    requires Derives(v) && (v.Literal? || v.Number?)
    ensures Flat(ValueText(v))
  {
  }

  lemma {:induction false} ScanValue(d: nat, v: Json)
    requires Derives(v) && d <= MAX_NESTING_DEPTH
    ensures Scan(Outside(d), ValueText(v)) == After(d, Depth(v))
    decreases v
  {
    hide Scan, WhiteSpace, ItemsText, MembersText;
    match v
    case Literal(text) => ScalarIsFlat(v); ScanFlat(d, text);
    case Number(text) => ScalarIsFlat(v); ScanFlat(d, text);
    case Str(pieces) => ScanString(d, pieces);
    case Array(pad, items) =>
      ScanContainer(d, '[', ']', pad, ItemsText(items), ItemsDepth(items)) by {
        if d < MAX_NESTING_DEPTH {
          ScanItems(d + 1, items);
        }
      }
    case Object(pad, members) =>
      ScanContainer(d, '{', '}', pad, MembersText(members), MembersDepth(members)) by {
        if d < MAX_NESTING_DEPTH {
          ScanMembers(d + 1, members);
        }
      }
  }

  lemma ScanContainer(d: nat, open: char, close: char, pad: string, body: string, depth: nat)
    requires d <= MAX_NESTING_DEPTH && WhiteSpace(pad)
    requires (open == '[' && close == ']') || (open == '{' && close == '}')
    requires d < MAX_NESTING_DEPTH ==> Scan(Outside(d + 1), body) == After(d + 1, depth)
    ensures Scan(Outside(d), [open] + (pad + (body + [close]))) == After(d, 1 + depth)
  {
    ScanConcat(Outside(d), [open], pad + (body + [close]));
    ScanChar(Outside(d), open);
    if d == MAX_NESTING_DEPTH {
      TooDeepStays(pad + (body + [close]));
    } else {
      Skip(d + 1, pad, body + [close]);
      ScanConcat(Outside(d + 1), body, [close]);
      TooDeepStays([close]);
      ScanChar(Outside(d + 1), close);
    }
  }

  /** A value followed by more text at the same depth. */
  lemma Then(d: nat, v: string, depth: nat, rest: string, restDepth: nat)
    requires d <= MAX_NESTING_DEPTH
    requires Scan(Outside(d), v) == After(d, depth)
    requires Scan(Outside(d), rest) == After(d, restDepth)
    ensures Scan(Outside(d), v + rest) == After(d, Max(depth, restDepth))
  {
    ScanConcat(Outside(d), v, rest);
    TooDeepStays(rest);
  }

  lemma {:induction false} ScanItems(d: nat, items: Items)
    requires ItemsDerive(items) && d <= MAX_NESTING_DEPTH
    ensures Scan(Outside(d), ItemsText(items)) == After(d, ItemsDepth(items))
    decreases items
  {
    match items
    case NoItems =>
    case Item(before, value, after, rest) =>
      var comma := if rest.Item? then "," else "";
      var tail := after + (comma + ItemsText(rest));
      ScanItems(d, rest);
      Skip(d, comma, ItemsText(rest));
      Skip(d, after, comma + ItemsText(rest));
      ScanValue(d, value);
      Then(d, ValueText(value), Depth(value), tail, ItemsDepth(rest));
      Skip(d, before, ValueText(value) + tail);
  }

  lemma {:induction false} ScanMembers(d: nat, members: Members)
    requires MembersDerive(members) && d <= MAX_NESTING_DEPTH
    ensures Scan(Outside(d), MembersText(members)) == After(d, MembersDepth(members))
    decreases members
  {
    match members
    case NoMembers =>
    case Member(before, key, afterKey, beforeValue, value, after, rest) =>
      var comma := if rest.Member? then "," else "";
      var tail := after + (comma + MembersText(rest));
      var tail1 := beforeValue + (ValueText(value) + tail);
      var tail2 := afterKey + (":" + tail1);
      ScanMembers(d, rest);
      Skip(d, comma, MembersText(rest));
      Skip(d, after, comma + MembersText(rest));
      ScanValue(d, value);
      Then(d, ValueText(value), Depth(value), tail, MembersDepth(rest));
      Skip(d, beforeValue, ValueText(value) + tail);
      Skip(d, ":", tail1);
      Skip(d, afterKey, ":" + tail1);
      ScanString(d, key);
      ScanConcat(Outside(d), StringText(key), tail2);
      Skip(d, before, StringText(key) + tail2);
  }

  /** For every JSON text, however its white space, strings and numbers are written, the scan
      answers "too deep" exactly when the tree nests more than 200 containers. */
  lemma ScanAgreesWithTree(before: string, v: Json, after: string)
    requires WhiteSpace(before) && Derives(v) && WhiteSpace(after)
    ensures Scan(Outside(0), DocumentText(before, v, after)) == TooDeep <==> Depth(v) > 200
  {
    ScanValue(0, v);
    ScanFlat(0, after);
    Then(0, ValueText(v), Depth(v), after, 0);
    Skip(0, before, ValueText(v) + after);
  }
}
