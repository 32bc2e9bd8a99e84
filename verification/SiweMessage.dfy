/**
 The EIP-4361 message of app/auth/siwe.py: the printer, the parser with its leftmost-match
 patterns, and the exact condition under which the parser reads back what was printed.
 */
module SiweMessage {
  import opened Options
  import opened Text

  // ---------- Text primitives ----------

  /** The characters Python's `strip` removes. */
  predicate IsSpace(c: char) {
    var n := c as int;
    || 0x09 <= n <= 0x0D || 0x1C <= n <= 0x20 || n == 0x85 || n == 0xA0 || n == 0x1680
    || 0x2000 <= n <= 0x200A || n == 0x2028 || n == 0x2029 || n == 0x202F || n == 0x205F || n == 0x3000
  }

  predicate IsDigit(c: char) { '0' <= c <= '9' }
  predicate IsLowerHex(c: char) { '0' <= c <= '9' || 'a' <= c <= 'f' }
  predicate IsHex(c: char) { IsLowerHex(c) || 'A' <= c <= 'F' }
  predicate IsDot(c: char) { c != '\n' }

  predicate All(ok: char -> bool, s: string) { forall i :: 0 <= i < |s| ==> ok(s[i]) }
  predicate OneLine(s: string) { '\n' !in s }

  function StripLeft(s: string): string {
    if s != "" && IsSpace(s[0]) then StripLeft(s[1..]) else s
  }

  function StripRight(s: string): string {
    if s != "" && IsSpace(s[|s| - 1]) then StripRight(s[..|s| - 1]) else s
  }

  function Strip(s: string): string { StripLeft(StripRight(s)) }

  /** `s.split("\n")` */
  function Lines(s: string): (ls: seq<string>)
    ensures ls != []
  {
    if s == "" then [""]
    else if s[0] == '\n' then [""] + Lines(s[1..])
    else
      var ls := Lines(s[1..]);
      [[s[0]] + ls[0]] + ls[1..]
  }

  function Join(ls: seq<string>): string
    requires ls != []
  {
    if |ls| == 1 then ls[0] else ls[0] + "\n" + Join(ls[1..])
  }

  /** `s.split(sep)[0]` */
  function Before(sep: string, s: string): string {
    if sep <= s || s == "" then "" else [s[0]] + Before(sep, s[1..])
  }

  /** A regular expression `tag(class+)` with a greedy group. */
  datatype Pattern = Pattern(tag: string, ok: char -> bool)

  function Prefix(ok: char -> bool, s: string): string {
    if s != "" && ok(s[0]) then [s[0]] + Prefix(ok, s[1..]) else ""
  }

  predicate MatchesAt(p: Pattern, s: string) {
    p.tag <= s && |s| > |p.tag| && p.ok(s[|p.tag|])
  }

  /** The group of the leftmost match. */
  function Search(p: Pattern, s: string): Option<string> {
    if MatchesAt(p, s) then Some(Prefix(p.ok, s[|p.tag|..]))
    else if s == "" then None
    else Search(p, s[1..])
  }

  predicate IsAddress(s: string) {
    |s| == 42 && s[0] == '0' && s[1] == 'x' && All(IsHex, s[2..])
  }

  predicate StartsWithAddress(s: string) { |s| >= 42 && IsAddress(s[..42]) }

  function SearchAddress(s: string): Option<string> {
    if StartsWithAddress(s) then Some(s[..42])
    else if s == "" then None
    else SearchAddress(s[1..])
  }

  function ToDecimal(n: nat): (s: string)
    ensures s != "" && All(IsDigit, s)
  {
    var last := ['0' + (n % 10) as char];
    if n < 10 then last else ToDecimal(n / 10) + last
  }

  function FromDecimal(s: string): nat
    requires All(IsDigit, s)
  {
    if s == "" then 0 else 10 * FromDecimal(s[..|s| - 1]) + (s[|s| - 1] - '0') as nat
  }

  function IntText(n: int): string { if n < 0 then "-" + ToDecimal(-n) else ToDecimal(n) }

  // ---------- Printer ----------

  const GREETING := " wants you to sign in"
  const REST := " with your Ethereum account:"
  const NONCE := Pattern("Nonce: ", IsLowerHex)
  const CHAIN := Pattern("Chain ID: ", IsDigit)
  const EXPIRY := Pattern("Expiration Time: ", IsDot)

  /** What goes into a message; the two times are already formatted. */
  datatype Fields = Fields(domain: string, address: string, statement: string, uri: string, chainId: int,
                           nonce: string, issuedAt: string, expirationTime: string)

  function TemplateLines(f: Fields): (ls: seq<string>)
    ensures |ls| == 11
  {
    [ f.domain + GREETING + REST,
      f.address,
      "",
      f.statement,
      "",
      "URI: " + f.uri,
      "Version: 1",
      "Chain ID: " + IntText(f.chainId),
      "Nonce: " + f.nonce,
      "Issued At: " + f.issuedAt,
      "Expiration Time: " + f.expirationTime ]
  }

  function Build(f: Fields): string { Join(TemplateLines(f)) }

  // ---------- Parser ----------

  datatype Message = Message(domain: string, address: string, statement: string, uri: string, version: string,
                             chainId: int, nonce: string, issuedAt: string, expirationTime: Option<string>)

  datatype ParseResult = Parsed(message: Message) | TooShort | NoAddress | NoNonce

  lemma {:induction false} PrefixAll(ok: char -> bool, s: string)
    ensures All(ok, Prefix(ok, s))
  {
    if s != "" && ok(s[0]) { PrefixAll(ok, s[1..]); }
  }

  lemma {:induction false} SearchAll(p: Pattern, s: string)
    ensures Search(p, s).Some? ==> All(p.ok, Search(p, s).value) && Search(p, s).value != ""
  {
    if MatchesAt(p, s) { PrefixAll(p.ok, s[|p.tag|..]); } else if s != "" { SearchAll(p, s[1..]); }
  }

  function ChainIdIn(text: string): int {
    var m := Search(CHAIN, text);
    SearchAll(CHAIN, text);
    if m.Some? then FromDecimal(m.value) else 137
  }

  function Parse(text: string): ParseResult {
    var lines := Lines(Strip(text));
    if |lines| < 8 then TooShort
    else
      var address := SearchAddress(lines[1]);
      if address.None? then NoAddress
      else
        var nonce := Search(NONCE, text);
        if nonce.None? then NoNonce
        else Parsed(Message(Before(GREETING, lines[0]), address.value, "", "", "1",
                            ChainIdIn(text), nonce.value, "", Search(EXPIRY, text)))
  }

  // ---------- What the patterns and the parser accept ----------

  /** The greedy group: the longest prefix of allowed characters. */
  lemma {:induction false} PrefixIsLongest(ok: char -> bool, s: string)
    ensures var v := Prefix(ok, s);
            v <= s && All(ok, v) && (|v| < |s| ==> !ok(s[|v|]))
  {
    if s != "" && ok(s[0]) {
      PrefixIsLongest(ok, s[1..]);
    }
  }

  /** The group of the leftmost match: nothing matches to the left of where it is found. */
  lemma {:induction false} SearchIsLeftmost(p: Pattern, s: string) returns (i: nat)
    ensures Search(p, s).Some? <==> exists k :: 0 <= k <= |s| && MatchesAt(p, s[k..])
    ensures Search(p, s).Some? ==>
              && i <= |s| && MatchesAt(p, s[i..]) && Search(p, s) == Some(Prefix(p.ok, s[i..][|p.tag|..]))
              && forall k :: 0 <= k < i ==> !MatchesAt(p, s[k..])
  {
    i := 0;
    assert s[0..] == s;
    if !MatchesAt(p, s) && s != "" {
      i := SearchIsLeftmost(p, s[1..]);
      i := i + 1;
      assert forall k :: 0 < k <= |s| ==> s[1..][k - 1..] == s[k..];
      if Search(p, s).Some? {
        assert MatchesAt(p, s[i..]);
      }
      forall k | 0 <= k <= |s| && MatchesAt(p, s[k..]) ensures Search(p, s).Some? {
        assert s[1..][k - 1..] == s[k..];
      }
    }
  }

  lemma {:induction false} AddressIsLeftmost(s: string) returns (i: nat)
    ensures SearchAddress(s).Some? <==> exists k :: 0 <= k <= |s| && StartsWithAddress(s[k..])
    ensures SearchAddress(s).Some? ==>
              && i <= |s| && StartsWithAddress(s[i..]) && SearchAddress(s) == Some(s[i..][..42])
              && forall k :: 0 <= k < i ==> !StartsWithAddress(s[k..])
  {
    hide StartsWithAddress;
    i := 0;
    assert s[0..] == s;
    if !StartsWithAddress(s) && s != "" {
      i := AddressIsLeftmost(s[1..]);
      i := i + 1;
      assert forall k :: 0 < k <= |s| ==> s[1..][k - 1..] == s[k..];
      forall k | 0 <= k <= |s| && StartsWithAddress(s[k..]) ensures SearchAddress(s).Some? {
        assert s[1..][k - 1..] == s[k..];
      }
    }
  }

  function Newlines(s: string): nat {
    if s == "" then 0 else (if s[0] == '\n' then 1 else 0) + Newlines(s[1..])
  }

  lemma {:induction false} LinesCount(s: string)
    ensures |Lines(s)| == Newlines(s) + 1
  {
    if s != "" { LinesCount(s[1..]); }
  }

  /**
   * Which texts parse: those with seven line breaks after stripping, an address somewhere in
   * the second line and a nonce label followed by a hexadecimal digit anywhere.
   */
  lemma ParsesExactly(text: string)
    ensures Parse(text).TooShort? <==> Newlines(Strip(text)) < 7
    ensures Parse(text).Parsed? <==>
              && Newlines(Strip(text)) >= 7
              && (var line := Lines(Strip(text))[1]; exists k :: 0 <= k <= |line| && StartsWithAddress(line[k..]))
              && exists k :: 0 <= k <= |text| && MatchesAt(NONCE, text[k..])
  {
    LinesCount(Strip(text));
    if Newlines(Strip(text)) >= 7 {
      var j := AddressIsLeftmost(Lines(Strip(text))[1]);
      var i := SearchIsLeftmost(NONCE, text);
    }
  }

  /** `v` is the group of the match at `i`, and nothing matches further left. */
  predicate LeftmostGroup(p: Pattern, s: string, i: nat, v: string) {
    && i <= |s| && MatchesAt(p, s[i..]) && (forall k :: 0 <= k < i ==> !MatchesAt(p, s[k..]))
    && var rest := s[i..][|p.tag|..];
       v <= rest && All(p.ok, v) && (|v| < |rest| ==> !p.ok(rest[|v|]))
  }

  /** The pattern matches somewhere in `s`. */
  predicate Occurs(p: Pattern, s: string) { exists k :: 0 <= k <= |s| && MatchesAt(p, s[k..]) }

  lemma SearchExactly(p: Pattern, s: string)
    ensures Search(p, s).Some? <==> Occurs(p, s)
    ensures Search(p, s).Some? ==> exists i: nat :: LeftmostGroup(p, s, i, Search(p, s).value)
  {
    var i := SearchIsLeftmost(p, s);
    if Search(p, s).Some? {
      PrefixIsLongest(p.ok, s[i..][|p.tag|..]);
      assert LeftmostGroup(p, s, i, Search(p, s).value);
    }
  }

  /** The part before the first separator, or everything if there is none. */
  lemma {:induction false} BeforeIsFirst(sep: string, s: string)
    requires sep != ""
    ensures var v := Before(sep, s);
            && v <= s && (v == s || sep <= s[|v|..]) && forall k :: 0 <= k < |v| ==> !(sep <= s[k..])
  {
    assert s[0..] == s;
    if !(sep <= s) && s != "" {
      BeforeIsFirst(sep, s[1..]);
      var v := Before(sep, s);
      assert s[|v|..] == s[1..][|v| - 1..];
      forall k | 0 <= k < |v| ensures !(sep <= s[k..]) {
        if k > 0 { assert s[k..] == s[1..][k - 1..]; }
      }
    }
  }

  /**
   * What is read off any text that parses: the domain is the first line up to the first
   * greeting, the address the leftmost one of the second line, and the nonce, chain id and
   * expiration time the groups of the leftmost matches in the whole text, wherever they are.
   */
  lemma ParsedFields(text: string)
    requires Parse(text).Parsed?
    ensures var m, lines := Parse(text).message, Lines(Strip(text));
            && m.domain <= lines[0]
            && (m.domain == lines[0] || " wants you to sign in" <= lines[0][|m.domain|..])
            && (forall k :: 0 <= k < |m.domain| ==> !(" wants you to sign in" <= lines[0][k..]))
    ensures var m, line := Parse(text).message, Lines(Strip(text))[1];
            exists i :: 0 <= i <= |line| && StartsWithAddress(line[i..]) && m.address == line[i..][..42]
                        && forall k :: 0 <= k < i ==> !StartsWithAddress(line[k..])
    ensures exists i: nat :: LeftmostGroup(Pattern("Nonce: ", IsLowerHex), text, i, Parse(text).message.nonce)
    ensures var chain, id := Pattern("Chain ID: ", IsDigit), Parse(text).message.chainId;
            if Occurs(chain, text)
            then exists i: nat, v :: LeftmostGroup(chain, text, i, v) && All(IsDigit, v) && id == FromDecimal(v)
            else id == 137
    ensures var expiry, time := Pattern("Expiration Time: ", IsDot), Parse(text).message.expirationTime;
            && (time.Some? <==> Occurs(expiry, text))
            && (time.Some? ==> exists i: nat :: LeftmostGroup(expiry, text, i, time.value))
    ensures var m := Parse(text).message;
            m.statement == "" && m.uri == "" && m.version == "1" && m.issuedAt == ""
  {
    hide Occurs, LeftmostGroup, StartsWithAddress, Before;
    BeforeIsFirst(GREETING, Lines(Strip(text))[0]);
    var j := AddressIsLeftmost(Lines(Strip(text))[1]);
    SearchExactly(NONCE, text);
    SearchExactly(CHAIN, text);
    SearchExactly(EXPIRY, text);
    SearchAll(CHAIN, text);
  }

  // ---------- Searching line by line ----------

  predicate LinePattern(p: Pattern) { OneLine(p.tag) && !p.ok('\n') }

  function First(p: Pattern, ls: seq<string>): Option<string> {
    if ls == [] then None else if Search(p, ls[0]).Some? then Search(p, ls[0]) else First(p, ls[1..])
  }

  lemma {:induction false} PrefixStops(ok: char -> bool, line: string, rest: string)
    requires !ok('\n') && OneLine(line)
    ensures Prefix(ok, line + "\n" + rest) == Prefix(ok, line)
  {
    var s := line + "\n" + rest;
    if line == "" {
      assert s[0] == '\n';
    } else {
      assert s[0] == line[0] && s[1..] == line[1..] + "\n" + rest;
      PrefixStops(ok, line[1..], rest);
    }
  }

  lemma MatchStays(p: Pattern, line: string, rest: string)
    requires LinePattern(p) && OneLine(line)
    ensures MatchesAt(p, line + "\n" + rest) <==> MatchesAt(p, line)
    ensures MatchesAt(p, line) ==>
              Prefix(p.ok, (line + "\n" + rest)[|p.tag|..]) == Prefix(p.ok, line[|p.tag|..])
  {
    var s, n := line + "\n" + rest, |p.tag|;
    assert s[|line|] == '\n';
    if n <= |line| {
      assert s[..n] == line[..n];
      if MatchesAt(p, line) {
        assert s[n..] == line[n..] + "\n" + rest;
        PrefixStops(p.ok, line[n..], rest);
      }
    }
  }

  lemma {:induction false} SearchFirstLine(p: Pattern, line: string, rest: string)
    requires LinePattern(p) && OneLine(line)
    ensures Search(p, line + "\n" + rest) == if Search(p, line).Some? then Search(p, line) else Search(p, rest)
  {
    var s := line + "\n" + rest;
    MatchStays(p, line, rest);
    if !MatchesAt(p, line) {
      if line == "" {
        assert s[1..] == rest;
      } else {
        assert s[1..] == line[1..] + "\n" + rest;
        SearchFirstLine(p, line[1..], rest);
      }
    }
  }

  /** Searching a text is searching its lines in order. */
  lemma {:induction false} SearchJoin(p: Pattern, ls: seq<string>)
    requires LinePattern(p) && ls != [] && forall l <- ls :: OneLine(l)
    ensures Search(p, Join(ls)) == First(p, ls)
  {
    if |ls| == 1 {
      assert First(p, ls[1..]) == None;
    } else {
      SearchFirstLine(p, ls[0], Join(ls[1..]));
      SearchJoin(p, ls[1..]);
    }
  }

  lemma {:induction false} FirstAppend(p: Pattern, a: seq<string>, b: seq<string>)
    ensures First(p, a + b) == if First(p, a).Some? then First(p, a) else First(p, b)
  {
    if a == [] {
      assert a + b == b;
    } else {
      assert (a + b)[1..] == a[1..] + b;
      FirstAppend(p, a[1..], b);
    }
  }

  lemma {:induction false} PrefixWhole(ok: char -> bool, s: string)
    requires All(ok, s)
    ensures Prefix(ok, s) == s
  {
    if s != "" { PrefixWhole(ok, s[1..]); }
  }

  lemma OwnLine(p: Pattern, value: string)
    requires value != "" && All(p.ok, value)
    ensures Search(p, p.tag + value) == Some(value)
  {
    assert (p.tag + value)[|p.tag|..] == value;
    PrefixWhole(p.ok, value);
  }

  // ---------- Splitting and stripping ----------

  lemma {:induction false} LinesCons(line: string, rest: string)
    requires OneLine(line)
    ensures Lines(line + "\n" + rest) == [line] + Lines(rest)
  {
    var s := line + "\n" + rest;
    if line == "" {
      assert s[1..] == rest;
    } else {
      assert s[1..] == line[1..] + "\n" + rest;
      LinesCons(line[1..], rest);
      assert [line[0]] + line[1..] == line;
    }
  }

  lemma {:induction false} LinesOne(line: string)
    requires OneLine(line)
    ensures Lines(line) == [line]
  {
    if line != "" {
      LinesOne(line[1..]);
      assert [line[0]] + line[1..] == line;
    }
  }

  lemma {:induction false} LinesJoin(ls: seq<string>)
    requires ls != [] && forall l <- ls :: OneLine(l)
    ensures Lines(Join(ls)) == ls
  {
    if |ls| == 1 {
      LinesOne(ls[0]);
    } else {
      LinesCons(ls[0], Join(ls[1..]));
      LinesJoin(ls[1..]);
    }
  }

  /** Stripping on the right stops inside `b` if `b` starts with a visible character. */
  lemma {:induction false} StripRightTail(a: string, b: string)
    requires b != "" && !IsSpace(b[0])
    ensures StripRight(a + b) == a + StripRight(b)
    ensures StripRight(b) != "" && StripRight(b)[0] == b[0] && StripRight(b) <= b
    decreases |b|
  {
    if IsSpace(b[|b| - 1]) {
      assert (a + b)[..|a + b| - 1] == a + b[..|b| - 1];
      StripRightTail(a, b[..|b| - 1]);
    }
  }

  lemma {:induction false} StripLeftHead(a: string, b: string)
    requires exists i :: 0 <= i < |a| && !IsSpace(a[i])
    ensures StripLeft(a + b) == StripLeft(a) + b
    ensures StripLeft(a) != "" && !IsSpace(StripLeft(a)[0])
    ensures forall c <- StripLeft(a) :: c in a
  {
    assert (a + b)[0] == a[0];
    if IsSpace(a[0]) {
      var i :| 0 <= i < |a| && !IsSpace(a[i]);
      assert a[1..][i - 1] == a[i];
      assert (a + b)[1..] == a[1..] + b;
      StripLeftHead(a[1..], b);
    }
  }

  lemma {:induction false} JoinLast(ls: seq<string>, last: string)
    requires ls != []
    ensures Join(ls + [last]) == Join(ls) + "\n" + last
  {
    var all := ls + [last];
    if |ls| == 1 {
      assert all[1..] == [last];
    } else {
      assert all[1..] == ls[1..] + [last];
      JoinLast(ls[1..], last);
      assert ls[0] + "\n" + (Join(ls[1..]) + "\n" + last) == ls[0] + "\n" + Join(ls[1..]) + "\n" + last;
    }
  }

  // ---------- The domain ----------

  lemma GreetingHasNoBorder(k: nat)
    requires 0 < k < |GREETING|
    ensures GREETING[k] != GREETING[0] || k + 1 == |GREETING| || GREETING[k + 1] != GREETING[1]
    ensures GREETING[|GREETING| - 1] != GREETING[0]
  {
  }

  /** The greeting cannot start inside a non-empty text that is followed by the greeting. */
  lemma NoEarlyGreeting(domain: string, rest: string)
    requires domain != "" && !(GREETING <= domain)
    ensures !(GREETING <= domain + GREETING + rest)
  {
    var s, k := domain + GREETING + rest, |domain|;
    if k < |GREETING| {
      GreetingHasNoBorder(k);
      assert s[k] == GREETING[0] && s[k + 1] == GREETING[1];
    } else {
      assert s[..|GREETING|] == domain[..|GREETING|];
    }
  }

  /** If the separator cannot start inside any end of `a`, the part before it is `a`. */
  lemma {:induction false} BeforeSeparator(a: string, sep: string, b: string)
    requires forall k :: 0 <= k < |a| ==> !(sep <= a[k..] + sep + b)
    ensures Before(sep, a + sep + b) == a
  {
    var s := a + sep + b;
    if a == "" {
      assert sep <= s;
    } else {
      assert a[0..] == a;
      forall k | 0 <= k < |a[1..]| ensures !(sep <= a[1..][k..] + sep + b) {
        assert a[1..][k..] == a[k + 1..];
      }
      assert s[0] == a[0] && s[1..] == a[1..] + sep + b;
      BeforeSeparator(a[1..], sep, b);
    }
  }

  lemma {:induction false} ContainsEnd(sub: string, s: string, k: nat)
    requires k <= |s| && !Contains(sub, s)
    ensures !(sub <= s[k..])
  {
    if k == 0 {
      assert s[0..] == s;
    } else {
      ContainsEnd(sub, s[1..], k - 1);
      assert s[1..][k - 1..] == s[k..];
    }
  }

  lemma BeforeGreeting(domain: string, rest: string)
    requires !Contains(GREETING, domain)
    ensures Before(GREETING, domain + GREETING + rest) == domain
  {
    forall k | 0 <= k < |domain| ensures !(GREETING <= domain[k..] + GREETING + rest) {
      ContainsEnd(GREETING, domain, k);
      NoEarlyGreeting(domain[k..], rest);
    }
    BeforeSeparator(domain, GREETING, rest);
  }

  /** If the separator already occurs in `a`, the part before it ends inside `a`. */
  lemma {:induction false} BeforeStopsEarly(sep: string, a: string, b: string)
    requires sep != "" && Contains(sep, a)
    ensures |Before(sep, a + b)| < |a|
  {
    var s := a + b;
    if sep <= a {
      assert sep <= s;
    } else {
      assert s[1..] == a[1..] + b;
      BeforeStopsEarly(sep, a[1..], b);
    }
  }

  predicate DomainOk(domain: string) {
    domain != "" && !IsSpace(domain[0]) && !Contains(GREETING, domain)
  }

  /** The first line yields the domain again exactly if the domain is visible at its start and free of the greeting. */
  lemma DomainReadBack(domain: string)
    ensures Before(GREETING, StripLeft(domain + GREETING + REST)) == domain <==> DomainOk(domain)
  {
    var line := domain + GREETING + REST;
    assert line == line + "";
    assert line[|domain| + 1] == 'w' && !IsSpace('w');
    StripLeftHead(line, "");
    var s := StripLeft(line);
    assert GREETING[0] == ' ' && IsSpace(' ');
    assert !(GREETING <= s);
    assert Before(GREETING, s) == [s[0]] + Before(GREETING, s[1..]);
    if domain != "" && !IsSpace(domain[0]) {
      assert line[0] == domain[0];
      assert s == line;
      if Contains(GREETING, domain) {
        assert line == domain + (GREETING + REST);
        BeforeStopsEarly(GREETING, domain, GREETING + REST);
      } else {
        BeforeGreeting(domain, REST);
      }
    }
  }

  // ---------- Numbers and addresses ----------

  lemma {:induction false} DecimalReadBack(n: nat)
    ensures FromDecimal(ToDecimal(n)) == n
    ensures n > 0 ==> ToDecimal(n)[0] != '0'
  {
    var s := ToDecimal(n);
    if n < 10 {
      assert s[..|s| - 1] == "";
    } else {
      DecimalReadBack(n / 10);
      assert s[..|s| - 1] == ToDecimal(n / 10);
    }
  }

  // ---------- The round trip ----------

  /** The form the source's own callers give the fields: one line each, an address and a nonce of the right alphabet. */
  predicate Shape(f: Fields) {
    && OneLine(f.domain) && OneLine(f.statement) && OneLine(f.uri) && OneLine(f.issuedAt)
    && OneLine(f.expirationTime) && f.expirationTime != ""
    && IsAddress(f.address) && f.nonce != "" && All(IsLowerHex, f.nonce)
  }

  /** No line before its own holds a match of the pattern, unless that match captures the same text. */
  predicate NoDecoy(p: Pattern, earlier: seq<string>, own: string) {
    First(p, earlier) == None || First(p, earlier) == Some(own)
  }

  predicate NoChainDecoy(earlier: seq<string>, own: int) {
    SearchAllLines(earlier);
    First(CHAIN, earlier) == None || FromDecimal(First(CHAIN, earlier).value) == own
  }

  lemma {:induction false} SearchAllLines(ls: seq<string>)
    ensures First(CHAIN, ls).Some? ==> All(IsDigit, First(CHAIN, ls).value)
  {
    if ls != [] {
      SearchAll(CHAIN, ls[0]);
      SearchAllLines(ls[1..]);
    }
  }

  /** What a caller can check on the fields before printing. */
  predicate Faithful(f: Fields) {
    && DomainOk(f.domain) && f.chainId >= 0
    && NoChainDecoy(TemplateLines(f)[..7], f.chainId)
    && NoDecoy(NONCE, TemplateLines(f)[..8], f.nonce)
    && NoDecoy(EXPIRY, TemplateLines(f)[..10], f.expirationTime)
  }

  function Expected(f: Fields): Message {
    Message(f.domain, f.address, "", "", "1", f.chainId, f.nonce, "", Some(f.expirationTime))
  }

  lemma OneLineAppend(a: string, b: string)
    requires OneLine(a) && OneLine(b)
    ensures OneLine(a + b)
  {
  }

  lemma OneLineParts(f: Fields)
    requires Shape(f)
    ensures OneLine(IntText(f.chainId)) && OneLine(f.address) && OneLine(f.nonce)
    ensures OneLine(f.domain + GREETING + REST)
  {
    assert All(IsDigit, ToDecimal(if f.chainId < 0 then -f.chainId else f.chainId));
    assert forall i :: 2 <= i < |f.address| ==> IsHex(f.address[2..][i - 2]) && f.address[2..][i - 2] == f.address[i];
    assert OneLine(GREETING) && OneLine(REST);
    OneLineAppend(f.domain, GREETING);
    OneLineAppend(f.domain + GREETING, REST);
  }

  lemma TemplateOneLine(f: Fields)
    requires Shape(f)
    ensures forall l <- TemplateLines(f) :: OneLine(l)
  {
    OneLineParts(f);
    OneLineAppend("URI: ", f.uri);
    OneLineAppend("Chain ID: ", IntText(f.chainId));
    OneLineAppend("Nonce: ", f.nonce);
    OneLineAppend("Issued At: ", f.issuedAt);
    OneLineAppend("Expiration Time: ", f.expirationTime);
  }

  lemma StripRightJoin(front: seq<string>, last: string)
    requires front != [] && last != "" && !IsSpace(last[0])
    ensures StripRight(Join(front + [last])) == Join(front + [StripRight(last)])
    ensures OneLine(last) ==> OneLine(StripRight(last))
  {
    JoinLast(front, last);
    StripRightTail(Join(front) + "\n", last);
    JoinLast(front, StripRight(last));
  }

  lemma StripLeftJoin(head: string, tail: seq<string>)
    requires tail != [] && exists i :: 0 <= i < |head| && !IsSpace(head[i])
    ensures StripLeft(Join([head] + tail)) == Join([StripLeft(head)] + tail)
    ensures OneLine(head) ==> OneLine(StripLeft(head))
  {
    assert ([head] + tail)[1..] == tail && ([StripLeft(head)] + tail)[1..] == tail;
    StripLeftHead(head, "\n" + Join(tail));
    assert Join([head] + tail) == head + ("\n" + Join(tail));
    assert Join([StripLeft(head)] + tail) == StripLeft(head) + ("\n" + Join(tail));
  }

  /** Stripping a text with visible first and last lines only changes those two lines. */
  lemma StripJoin(head: string, mid: seq<string>, last: string)
    requires OneLine(head) && OneLine(last) && forall l <- mid :: OneLine(l)
    requires exists i :: 0 <= i < |head| && !IsSpace(head[i])
    requires last != "" && !IsSpace(last[0])
    ensures Lines(Strip(Join([head] + mid + [last]))) == [StripLeft(head)] + mid + [StripRight(last)]
  {
    StripRightJoin([head] + mid, last);
    assert [head] + mid + [StripRight(last)] == [head] + (mid + [StripRight(last)]);
    StripLeftJoin(head, mid + [StripRight(last)]);
    assert [StripLeft(head)] + mid + [StripRight(last)] == [StripLeft(head)] + (mid + [StripRight(last)]);
    LinesJoin([StripLeft(head)] + mid + [StripRight(last)]);
  }

  /** The stripped text still has the eleven lines; only its first and last line can have changed. */
  lemma StrippedLines(f: Fields)
    requires Shape(f)
    ensures var ls := Lines(Strip(Build(f)));
            && |ls| == 11 && ls[1] == f.address
            && ls[0] == StripLeft(f.domain + GREETING + REST)
  {
    TemplateOneLine(f);
    var head, last := f.domain + GREETING + REST, "Expiration Time: " + f.expirationTime;
    assert head[|f.domain| + 1] == 'w' && !IsSpace('w');
    assert last[0] == 'E' && !IsSpace('E');
    StripEleven(TemplateLines(f), head, last);
  }

  lemma StripEleven(ls: seq<string>, head: string, last: string)
    requires |ls| == 11 && ls[0] == head && ls[10] == last && forall l <- ls :: OneLine(l)
    requires exists i :: 0 <= i < |head| && !IsSpace(head[i])
    requires last != "" && !IsSpace(last[0])
    ensures var ls' := Lines(Strip(Join(ls))); |ls'| == 11 && ls'[1] == ls[1] && ls'[0] == StripLeft(head)
  {
    assert ls == [head] + ls[1..10] + [last];
    StripJoin(head, ls[1..10], last);
  }

  lemma AddressReadBack(address: string)
    requires IsAddress(address)
    ensures SearchAddress(address) == Some(address)
  {
    assert address[..42] == address;
  }

  /** Each pattern finds the first decoy, if any, and else its own line. */
  lemma PatternReadsLine(p: Pattern, ls: seq<string>, k: nat, value: string)
    requires LinePattern(p) && k < |ls| && (forall l <- ls :: OneLine(l))
    requires ls[k] == p.tag + value && value != "" && All(p.ok, value)
    ensures Search(p, Join(ls)) == if First(p, ls[..k]).Some? then First(p, ls[..k]) else Some(value)
  {
    SearchJoin(p, ls);
    assert ls == ls[..k] + ls[k..];
    FirstAppend(p, ls[..k], ls[k..]);
    OwnLine(p, value);
  }

  lemma ChainReadBack(f: Fields)
    requires Shape(f)
    ensures ChainIdIn(Build(f)) == f.chainId <==> f.chainId >= 0 && NoChainDecoy(TemplateLines(f)[..7], f.chainId)
  {
    TemplateOneLine(f);
    SearchAll(CHAIN, Build(f));
    SearchAllLines(TemplateLines(f)[..7]);
    if f.chainId >= 0 {
      PatternReadsLine(CHAIN, TemplateLines(f), 7, ToDecimal(f.chainId));
      DecimalReadBack(f.chainId);
    }
  }

  /**
   * Printing and parsing: the parser returns the domain, address, chain id, nonce and
   * expiration time that were printed if and only if the fields are faithful.
   */
  lemma RoundTrip(f: Fields)
    requires Shape(f)
    ensures Parse(Build(f)) == Parsed(Expected(f)) <==> Faithful(f)
  {
    StrippedLines(f);
    DomainReadBack(f.domain);
    AddressReadBack(f.address);
    ChainReadBack(f);
    NonceAndExpiry(f);
  }

  lemma NonceAndExpiry(f: Fields)
    requires Shape(f)
    ensures Search(NONCE, Build(f)).Some? && Search(EXPIRY, Build(f)).Some?
    ensures Search(NONCE, Build(f)).value == f.nonce <==> NoDecoy(NONCE, TemplateLines(f)[..8], f.nonce)
    ensures Search(EXPIRY, Build(f)).value == f.expirationTime
            <==> NoDecoy(EXPIRY, TemplateLines(f)[..10], f.expirationTime)
  {
    TemplateOneLine(f);
    PatternReadsLine(NONCE, TemplateLines(f), 8, f.nonce);
    PatternReadsLine(EXPIRY, TemplateLines(f), 10, f.expirationTime);
  }

  // ---------- The printed text as a whole ----------

  lemma JoinEleven(ls: seq<string>)
    requires |ls| == 11
    ensures Join(ls) == JoinWith("\n", ls[0], ls[1], ls[2], ls[3], ls[4], ls[5], ls[6], ls[7], ls[8], ls[9], ls[10])
  {
    assert ls[..11] == ls && ls[..1] == [ls[0]];
    forall k | 0 < k < 11 ensures Join(ls[..k + 1]) == Join(ls[..k]) + "\n" + ls[k] {
      assert ls[..k + 1] == ls[..k] + [ls[k]];
      JoinLast(ls[..k], ls[k]);
    }
  }

  function JoinWith(nl: string, l0: string, l1: string, l2: string, l3: string, l4: string, l5: string,
                    l6: string, l7: string, l8: string, l9: string, l10: string): string {
    l0 + nl + l1 + nl + l2 + nl + l3 + nl + l4 + nl + l5 + nl + l6 + nl + l7 + nl + l8 + nl + l9 + nl + l10
  }

  lemma Attach(p: string, nl: string, tag: string, value: string)
    ensures p + nl + (tag + value) == p + (nl + tag) + value
  {
  }

  lemma AttachBlank(p: string, nl: string, tag: string, value: string)
    ensures p + nl + "" + nl + (tag + value) == p + (nl + nl + tag) + value
  {
  }

  lemma AttachAll(nl: string, d: string, greeting: string, address: string, statement: string, t5: string, uri: string,
                  version: string, t7: string, id: string, t8: string, nonce: string, t9: string, issued: string,
                  t10: string, expires: string)
    ensures JoinWith(nl, d + greeting, address, "", statement, "", t5 + uri, version, t7 + id, t8 + nonce,
                     t9 + issued, t10 + expires)
         == d + (greeting + nl) + address + (nl + nl) + statement + (nl + nl + t5) + uri + (nl + version + nl + t7) + id
            + (nl + t8) + nonce + (nl + t9) + issued + (nl + t10) + expires
  {
    assert d + greeting + nl == d + (greeting + nl);
    var p1 := d + (greeting + nl) + address;
    AttachBlank(p1, nl, "", statement);
    assert "" + statement == statement && nl + nl + "" == nl + nl;
    var p3 := p1 + (nl + nl) + statement;
    AttachBlank(p3, nl, t5, uri);
    var p5 := p3 + (nl + nl + t5) + uri;
    assert p5 + nl + version + nl + (t7 + id) == p5 + (nl + version + nl + t7) + id;
    var p7 := p5 + (nl + version + nl + t7) + id;
    Attach(p7, nl, t8, nonce);
    Attach(p7 + (nl + t8) + nonce, nl, t9, issued);
    Attach(p7 + (nl + t8) + nonce + (nl + t9) + issued, nl, t10, expires);
  }

  lemma GreetingPiece()
    ensures GREETING + REST + "\n" == " wants you to sign in with your Ethereum account:\n"
  {
  }

  lemma MiddlePieces()
    ensures "\n" + "\n" == "\n\n" && "\n" + "\n" + "URI: " == "\n\nURI: "
    ensures "\n" + "Version: 1" + "\n" + "Chain ID: " == "\nVersion: 1\nChain ID: "
  {
  }

  lemma LastPieces()
    ensures "\n" + "Nonce: " == "\nNonce: " && "\n" + "Issued At: " == "\nIssued At: "
    ensures "\n" + "Expiration Time: " == "\nExpiration Time: "
  {
  }

  /** The printed text is the service's template, filled in. */
  lemma PrintsTemplate(f: Fields)
    ensures Build(f)
         == f.domain + " wants you to sign in with your Ethereum account:\n" + f.address
            + "\n\n" + f.statement + "\n\nURI: " + f.uri + "\nVersion: 1\nChain ID: " + IntText(f.chainId)
            + "\nNonce: " + f.nonce + "\nIssued At: " + f.issuedAt + "\nExpiration Time: " + f.expirationTime
  {
    hide Join, IntText, JoinWith, GREETING, REST;
    GreetingPiece();
    MiddlePieces();
    LastPieces();
    JoinEleven(TemplateLines(f));
    assert f.domain + GREETING + REST == f.domain + (GREETING + REST);
    AttachAll("\n", f.domain, GREETING + REST, f.address, f.statement, "URI: ", f.uri, "Version: 1", "Chain ID: ",
              IntText(f.chainId), "Nonce: ", f.nonce, "Issued At: ", f.issuedAt, "Expiration Time: ", f.expirationTime);
  }
}
