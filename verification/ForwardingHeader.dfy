/** The signed header that carries an operator's identity from the router to a backend. */
module ForwardingHeader {
  import opened Wrappers
  import opened Text

  const U64_MAX: nat := 0xFFFF_FFFF_FFFF_FFFF

  datatype Role = Operator | Viewer

  type Key = seq<bv8>

  /** The message authentication code in hexadecimal: a function of key and message. */
  type Mac = (Key, string) -> string

  ghost predicate MacOk(mac: Mac) {
    forall key, message :: mac(key, message) != "" && DotFree(mac(key, message))
  }

  predicate DotFree(s: string) {
    '.' !in s
  }

  function RoleText(role: Role): string {
    match role
    case Operator => "operator"
    case Viewer => "viewer"
  }

  function ParseRole(s: string): Option<Role> {
    if s == "operator" then Some(Operator) else if s == "viewer" then Some(Viewer) else None
  }

  function Message(operator: string, role: Role, expiry: nat): string {
    operator + "." + RoleText(role) + "." + Decimal(expiry)
  }

  function SignUntil(mac: Mac, operator: string, role: Role, key: Key, expiry: nat): string {
    operator + "." + RoleText(role) + "." + Decimal(expiry) + "." + mac(key, Message(operator, role, expiry))
  }

  /** Signs for the next `ttl` seconds, the sum being that of 64-bit words. */
  function Sign(mac: Mac, operator: string, role: Role, key: Key, now: nat, ttl: nat): string {
    SignUntil(mac, operator, role, key, Expiry(now, ttl))
  }

  function Expiry(now: nat, ttl: nat): (e: nat)
    ensures e <= U64_MAX
  {
    (now + ttl) % (U64_MAX + 1)
  }

  /** The expiry is the sum of both, unless that passes 64 bits. */
  lemma ExpiryIs(now: nat, ttl: nat)
    ensures now + ttl < 0x1_0000_0000_0000_0000 ==> Expiry(now, ttl) == now + ttl
    ensures 0x1_0000_0000_0000_0000 <= now + ttl < 0x2_0000_0000_0000_0000 ==> Expiry(now, ttl) == now + ttl - 0x1_0000_0000_0000_0000
  {
  }

  /** The pieces of `s` between dots: one more than there are dots. */
  function SplitDots(s: string): (parts: seq<string>)
    ensures |parts| >= 1
  {
    if s == [] then [""]
    else
      var rest := SplitDots(s[1..]);
      if s[0] == '.' then [""] + rest else [[s[0]] + rest[0]] + rest[1..]
  }

  function JoinDots(parts: seq<string>): string
    requires |parts| >= 1
  {
    if |parts| == 1 then parts[0] else parts[0] + "." + JoinDots(parts[1..])
  }

  /** Parsing of an unsigned 64-bit number: one leading plus sign is allowed, and leading zeros. */
  function ParseU64(s: string): Option<nat> {
    var digits := if s != [] && s[0] == '+' then s[1..] else s;
    if digits != [] && AllDigits(digits) && Value(digits) <= U64_MAX then Some(Value(digits)) else None
  }

  function Verify(mac: Mac, header: string, key: Key, now: nat, window: nat): Option<(string, Role)> {
    var parts := SplitDots(header);
    if |parts| != 4 then None
    else if parts[0] == "" || parts[1] == "" || parts[2] == "" || parts[3] == "" then None
    else
      var role := ParseRole(parts[1]);
      var expiry := ParseU64(parts[2]);
      if role.None? || expiry.None? then None
      else if expiry.value <= now then None
      else if expiry.value - now > window then None
      else if mac(key, Message(parts[0], role.value, expiry.value)) == parts[3] then Some((parts[0], role.value))
      else None
  }

  // ---------------------------------------------------------------- splitting

  lemma {:induction false} SplitOne(a: string)
    requires DotFree(a)
    ensures SplitDots(a) == [a]
  {
    if a != [] {
      SplitOne(a[1..]);
      assert [a[0]] + a[1..] == a;
    }
  }

  lemma {:induction false} SplitFirst(a: string, t: string)
    requires DotFree(a)
    ensures SplitDots(a + "." + t) == [a] + SplitDots(t)
  {
    var s := a + "." + t;
    if a == [] {
      assert s[1..] == t;
    } else {
      assert s[1..] == a[1..] + "." + t;
      SplitFirst(a[1..], t);
      assert ([a[1..]] + SplitDots(t))[1..] == SplitDots(t);
      assert [a[0]] + a[1..] == a;
    }
  }

  /** Splitting undoes joining, and every piece is free of dots. */
  lemma {:induction false} SplitJoins(s: string)
    ensures JoinDots(SplitDots(s)) == s
    ensures forall p <- SplitDots(s) :: DotFree(p)
  {
    if s != [] {
      SplitJoins(s[1..]);
      var rest := SplitDots(s[1..]);
      if s[0] == '.' {
        assert ([""] + rest)[1..] == rest;
        assert s == "" + "." + s[1..];
      } else {
        assert [[s[0]] + rest[0]] + rest[1..] == rest[0 := [s[0]] + rest[0]];
        assert rest == [rest[0]] + rest[1..];
        assert rest[0] in rest;
        assert s == [s[0]] + s[1..];
      }
    }
  }

  /** The number of pieces of a concatenation at a dot. */
  lemma {:induction false} SplitLength(a: string, t: string)
    ensures |SplitDots(a + "." + t)| == |SplitDots(a)| + |SplitDots(t)|
  {
    var s := a + "." + t;
    if a == [] {
      assert s[1..] == t;
    } else {
      assert s[1..] == a[1..] + "." + t;
      SplitLength(a[1..], t);
    }
  }

  lemma {:induction false} SplitDotted(a: string)
    requires !DotFree(a)
    ensures |SplitDots(a)| >= 2
  {
    if a[0] != '.' {
      assert '.' in a[1..];
      SplitDotted(a[1..]);
    }
  }

  lemma DigitsAreDotFree(s: string)
    requires AllDigits(s)
    ensures DotFree(s)
  {
  }

  lemma ParsePrinted(n: nat)
    ensures ParseU64(Decimal(n)) == if n < 0x1_0000_0000_0000_0000 then Some(n) else None
  {
    DecimalValue(n);
    assert Decimal(n)[0] in Decimal(n);
  }

  // ---------------------------------------------------------------- signing and verifying

  lemma SplitSigned(operator: string, role: Role, expiry: nat, code: string)
    requires DotFree(code)
    ensures var header := operator + "." + RoleText(role) + "." + Decimal(expiry) + "." + code;
            && |SplitDots(header)| == |SplitDots(operator)| + 3
            && (DotFree(operator) ==> SplitDots(header) == [operator, RoleText(role), Decimal(expiry), code])
  {
    hide SplitDots, Decimal;
    var e := Decimal(expiry);
    DigitsAreDotFree(e);
    SplitOne(code);
    SplitFirst(e, code);
    SplitFirst(RoleText(role), e + "." + code);
    var tail := RoleText(role) + "." + (e + "." + code);
    SplitLength(operator, tail);
    if DotFree(operator) {
      SplitFirst(operator, tail);
    }
    assert operator + "." + RoleText(role) + "." + e + "." + code == operator + "." + tail;
  }

  /** A signed header verifies under its own key exactly when the operator id is non-empty and has
      no dot and the expiry lies in the window; and then it gives back operator and role. */
  lemma VerifySigned(mac: Mac, operator: string, role: Role, key: Key, signedAt: nat, ttl: nat, now: nat, window: nat)
    requires MacOk(mac)
    ensures Verify(mac, Sign(mac, operator, role, key, signedAt, ttl), key, now, window) ==
            if operator != "" && DotFree(operator) && now < Expiry(signedAt, ttl) <= now + window
            then Some((operator, role)) else None
  {
    hide SplitDots, Decimal, ParseU64;
    var expiry := Expiry(signedAt, ttl);
    var code := mac(key, Message(operator, role, expiry));
    SplitSigned(operator, role, expiry, code);
    ParsePrinted(expiry);
    if !DotFree(operator) {
      SplitDotted(operator);
    }
  }

  /** What a header must be to be accepted as `(operator, role)`. */
  ghost predicate Acceptable(mac: Mac, header: string, key: Key, now: nat, window: nat,
                             operator: string, role: Role, expiryText: string) {
    && operator != "" && DotFree(operator) && DotFree(expiryText)
    && ParseU64(expiryText).Some?
    && now < ParseU64(expiryText).value <= now + window
    && header == operator + "." + RoleText(role) + "." + expiryText + "."
                 + mac(key, Message(operator, role, ParseU64(expiryText).value))
  }

  /** A header is accepted exactly when it has four fields, the last of which is the code of the
      parsed operator, role and expiry; only the writing of the expiry is left open. */
  lemma AcceptedIff(mac: Mac, header: string, key: Key, now: nat, window: nat, operator: string, role: Role)
    requires MacOk(mac)
    ensures Verify(mac, header, key, now, window) == Some((operator, role)) <==>
            exists expiryText :: Acceptable(mac, header, key, now, window, operator, role, expiryText)
  {
    if Verify(mac, header, key, now, window) == Some((operator, role)) {
      var parts := SplitDots(header);
      SplitJoins(header);
      JoinFour(parts[0], parts[1], parts[2], parts[3]);
      assert parts == [parts[0], parts[1], parts[2], parts[3]];
      assert Acceptable(mac, header, key, now, window, operator, role, parts[2]);
    }
    if expiryText :| Acceptable(mac, header, key, now, window, operator, role, expiryText) {
      AcceptedOnly(mac, header, key, now, window, operator, role, expiryText);
    }
  }

  lemma JoinFour(a: string, b: string, c: string, d: string)
    ensures JoinDots([a, b, c, d]) == a + "." + b + "." + c + "." + d
  {
    assert [a, b, c, d][1..] == [b, c, d];
    assert [b, c, d][1..] == [c, d];
    assert [c, d][1..] == [d];
    assert JoinDots([d]) == d;
    assert JoinDots([c, d]) == c + "." + d;
    assert JoinDots([b, c, d]) == b + "." + (c + "." + d);
    assert a + "." + (b + "." + (c + "." + d)) == a + "." + b + "." + c + "." + d;
  }

  lemma AcceptedOnly(mac: Mac, header: string, key: Key, now: nat, window: nat,
                     operator: string, role: Role, expiryText: string)
    requires MacOk(mac)
    requires Acceptable(mac, header, key, now, window, operator, role, expiryText)
    ensures Verify(mac, header, key, now, window) == Some((operator, role))
  {
    hide SplitDots, ParseU64;
    var code := mac(key, Message(operator, role, ParseU64(expiryText).value));
    SplitOne(code);
    SplitFirst(expiryText, code);
    SplitFirst(RoleText(role), expiryText + "." + code);
    SplitFirst(operator, RoleText(role) + "." + (expiryText + "." + code));
    assert header == operator + "." + (RoleText(role) + "." + (expiryText + "." + code));
    assert expiryText != "" by { EmptyDoesNotParse(); }
  }

  lemma EmptyDoesNotParse()
    ensures ParseU64("") == None
  {
  }

  /** An accepted header whose third field is a number in its shortest form is the header signing
      prints for that operator, role and expiry. */
  lemma CanonicalIsSigned(mac: Mac, header: string, key: Key, now: nat, window: nat,
                          operator: string, role: Role, expiry: nat)
    requires MacOk(mac)
    requires Verify(mac, header, key, now, window) == Some((operator, role))
    requires |SplitDots(header)| == 4 && SplitDots(header)[2] == Decimal(expiry)
    ensures header == SignUntil(mac, operator, role, key, expiry)
  {
    var parts := SplitDots(header);
    SplitJoins(header);
    JoinFour(parts[0], parts[1], parts[2], parts[3]);
    assert parts == [parts[0], parts[1], parts[2], parts[3]];
    ParsePrinted(expiry);
    hide SplitDots, JoinDots, ParseU64, Decimal;
  }

  /** Other writings are accepted too: a plus sign in front of the expiry goes unnoticed. */
  lemma PlusSignAccepted(mac: Mac, operator: string, role: Role, key: Key, expiry: nat, now: nat, window: nat)
    requires MacOk(mac) && operator != "" && DotFree(operator) && now < expiry <= now + window && expiry <= U64_MAX
    ensures var header := operator + "." + RoleText(role) + "." + ("+" + Decimal(expiry)) + "."
                          + mac(key, Message(operator, role, expiry));
            && Verify(mac, header, key, now, window) == Some((operator, role))
            && header != SignUntil(mac, operator, role, key, expiry)
  {
    var text := "+" + Decimal(expiry);
    DecimalValue(expiry);
    assert text[1..] == Decimal(expiry);
    DigitsAreDotFree(Decimal(expiry));
    var header := operator + "." + RoleText(role) + "." + text + "." + mac(key, Message(operator, role, expiry));
    AcceptedOnly(mac, header, key, now, window, operator, role, text);
  }

  // ---------------------------------------------------------------- what is under the code

  /** The message says who, in which role, and until when: it is equal for two dot-free operators only
      if all three are. */
  lemma MessageIsInjective(a: string, r: Role, m: nat, b: string, s: Role, n: nat)
    requires DotFree(a) && DotFree(b)
    ensures Message(a, r, m) == Message(b, s, n) <==> a == b && r == s && m == n
  {
    MessageParts(a, r, m);
    MessageParts(b, s, n);
    DecimalValue(m);
    DecimalValue(n);
  }

  /** `operator.role.expiry`, with these words and the expiry in decimal. */
  lemma MessageParts(a: string, r: Role, m: nat)
    requires DotFree(a)
    ensures SplitDots(Message(a, r, m)) == [a, if r == Operator then "operator" else "viewer", Decimal(m)]
  {
    var role, expiry := RoleText(r), Decimal(m);
    assert DotFree(role);
    hide RoleText, Decimal, SplitDots;
    assert Message(a, r, m) == a + "." + (role + "." + expiry);
    SplitFirst(a, role + "." + expiry);
    SplitFirst(role, expiry);
    DigitsAreDotFree(expiry);
    SplitOne(expiry);
  }

  ghost predicate MacInjective(mac: Mac) {
    forall key, a, b :: mac(key, a) == mac(key, b) ==> a == b
  }

  /** Nothing under the code can be changed: a header accepted with the code of a header signed for an
      operator, a role and an expiry is accepted as that operator and role, and its third field is that
      expiry. */
  lemma CodeBindsAll(mac: Mac, header: string, key: Key, now: nat, window: nat, accepted: (string, Role),
                     operator: string, role: Role, expiry: nat)
    requires MacOk(mac) && MacInjective(mac) && DotFree(operator)
    requires Verify(mac, header, key, now, window) == Some(accepted)
    requires SplitDots(header)[|SplitDots(header)| - 1] == mac(key, Message(operator, role, expiry))
    ensures accepted == (operator, role)
    ensures |SplitDots(header)| == 4 && ParseU64(SplitDots(header)[2]) == Some(expiry) && now < expiry <= now + window
  {
    hide Message, Decimal, ParseU64, SplitDots;
    SplitJoins(header);
    var parts := SplitDots(header);
    MessageIsInjective(parts[0], accepted.1, ParseU64(parts[2]).value, operator, role, expiry);
  }

  /** So no writing of another expiry makes a signed header last longer. */
  lemma ExpiryCannotBeRewritten(mac: Mac, operator: string, role: Role, key: Key, expiry: nat, written: string, now: nat, window: nat)
    requires MacOk(mac) && MacInjective(mac) && DotFree(operator) && DotFree(written)
    requires ParseU64(written) != Some(expiry)
    ensures Verify(mac, operator + "." + RoleText(role) + "." + written + "." + mac(key, Message(operator, role, expiry)), key, now, window) == None
  {
    hide Message, Decimal, ParseU64;
    var code := mac(key, Message(operator, role, expiry));
    var header := operator + "." + RoleText(role) + "." + written + "." + code;
    SplitOne(code);
    SplitFirst(written, code);
    SplitFirst(RoleText(role), written + "." + code);
    SplitFirst(operator, RoleText(role) + "." + (written + "." + code));
    assert header == operator + "." + (RoleText(role) + "." + (written + "." + code));
    assert SplitDots(header) == [operator, RoleText(role), written, code];
    hide SplitDots, RoleText;
    if Verify(mac, header, key, now, window).Some? {
      CodeBindsAll(mac, header, key, now, window, Verify(mac, header, key, now, window).value, operator, role, expiry);
    }
  }
}
