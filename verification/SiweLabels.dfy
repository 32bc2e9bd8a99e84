/**
 Fields without the parser's labels are always read back; and how a label inside a field,
 or one completed by the greeting, takes over.
 */
module SiweLabels {
  import opened Options
  import opened Text
  import opened SiweMessage

  predicate LabelFree(s: string) {
    !Contains("Nonce:", s) && !Contains("Chain ID:", s) && !Contains("Expiration Time:", s)
  }

  predicate Labelled(p: Pattern, name: string) {
    name != "" && name[|name| - 1] == ':' && p.tag == name + " "
  }

  lemma Labels()
    ensures Labelled(NONCE, "Nonce:") && Labelled(CHAIN, "Chain ID:") && Labelled(EXPIRY, "Expiration Time:")
  {
  }

  lemma NoMatchHere(p: Pattern, name: string, a: string, b: string)
    requires Labelled(p, name) && !(name <= a)
    requires forall i :: 0 <= i < |b| - 1 ==> b[i] != ':'
    ensures !(p.tag <= a + b)
  {
    var s, n := a + b, |name|;
    assert p.tag[..n] == name && p.tag[n - 1] == ':';
    if n < |s| {
      if n <= |a| {
        assert s[..n] == a[..n];
      } else {
        assert s[n - 1] == b[n - 1 - |a|];
      }
    }
  }

  /** No match straddles `a` and `b` if `b` has no colon except possibly at its very end. */
  lemma {:induction false} NoStraddle(p: Pattern, name: string, a: string, b: string)
    requires Labelled(p, name) && !Contains(name, a)
    requires forall i :: 0 <= i < |b| - 1 ==> b[i] != ':'
    ensures Search(p, a + b) == None
    decreases |a| + |b|
  {
    var s := a + b;
    NoMatchHere(p, name, a, b);
    if a != "" {
      assert s[1..] == a[1..] + b;
      NoStraddle(p, name, a[1..], b);
    } else if b != "" {
      assert s == b && s[1..] == "" + b[1..];
      NoStraddle(p, name, "", b[1..]);
    }
  }

  /** A line whose fixed part lacks the label's first letter matches only inside its value. */
  lemma {:induction false} FixedPart(p: Pattern, name: string, fixed: string, value: string)
    requires Labelled(p, name) && name[0] !in fixed && !Contains(name, value)
    ensures Search(p, fixed + value) == None
  {
    var s := fixed + value;
    if fixed == "" {
      assert s == value + "";
      NoStraddle(p, name, value, "");
    } else {
      assert s[0] == fixed[0] && p.tag[0] == name[0] && s[1..] == fixed[1..] + value;
      FixedPart(p, name, fixed[1..], value);
    }
  }

  lemma NoColonLine(p: Pattern, name: string, line: string)
    requires Labelled(p, name) && ':' !in line
    ensures Search(p, line) == None
  {
    assert line == "" + line;
    NoStraddle(p, name, "", line);
  }

  lemma ValueLine(p: Pattern, name: string, line: string)
    requires Labelled(p, name) && !Contains(name, line)
    ensures Search(p, line) == None
  {
  }

  lemma GreetingColon()
    ensures forall i :: 0 <= i < |GREETING + REST| - 1 ==> (GREETING + REST)[i] != ':'
  {
  }

  lemma DomainLineClean(p: Pattern, name: string, domain: string)
    requires Labelled(p, name) && !Contains(name, domain)
    ensures Search(p, domain + GREETING + REST) == None
  {
    GreetingColon();
    assert domain + GREETING + REST == domain + (GREETING + REST);
    NoStraddle(p, name, domain, GREETING + REST);
  }

  lemma AddressClean(p: Pattern, name: string, address: string)
    requires Labelled(p, name) && IsAddress(address)
    ensures Search(p, address) == None
  {
    assert forall i :: 2 <= i < |address| ==> IsHex(address[2..][i - 2]) && address[2..][i - 2] == address[i];
    NoColonLine(p, name, address);
  }

  lemma FixedLinesClean(p: Pattern, name: string, uri: string)
    requires Labelled(p, name) && name[0] in "NCE" && !Contains(name, uri)
    ensures Search(p, "") == None && Search(p, "URI: " + uri) == None && Search(p, "Version: 1") == None
  {
    NoColonLine(p, name, "");
    FixedPart(p, name, "URI: ", uri);
    FixedPart(p, name, "Version: 1", "");
    assert "Version: 1" + "" == "Version: 1";
  }

  /** The seven lines ahead of the chain id, for any of the three patterns. */
  lemma HeadLinesClean(f: Fields, p: Pattern, name: string)
    requires Shape(f) && Labelled(p, name) && name[0] in "NCE"
    requires !Contains(name, f.domain) && !Contains(name, f.statement) && !Contains(name, f.uri)
    ensures forall i :: 0 <= i < 7 ==> Search(p, TemplateLines(f)[i]) == None
  {
    DomainLineClean(p, name, f.domain);
    AddressClean(p, name, f.address);
    ValueLine(p, name, f.statement);
    FixedLinesClean(p, name, f.uri);
  }

  lemma {:induction false} NoneFirst(p: Pattern, ls: seq<string>)
    requires forall i :: 0 <= i < |ls| ==> Search(p, ls[i]) == None
    ensures First(p, ls) == None
  {
    if ls != [] {
      assert forall i :: 0 <= i < |ls[1..]| ==> ls[1..][i] == ls[i + 1];
      NoneFirst(p, ls[1..]);
    }
  }

  lemma {:induction false} ContainsNeedsLetter(name: string, s: string)
    requires name != "" && name[0] !in s
    ensures !Contains(name, s)
  {
    if s != "" {
      ContainsNeedsLetter(name, s[1..]);
    }
  }

  lemma ChainClean(f: Fields)
    requires Shape(f) && LabelFree(f.domain) && LabelFree(f.statement) && LabelFree(f.uri)
    ensures First(CHAIN, TemplateLines(f)[..7]) == None
  {
    Labels();
    HeadLinesClean(f, CHAIN, "Chain ID:");
    NoneFirst(CHAIN, TemplateLines(f)[..7]);
  }

  lemma NonceClean(f: Fields)
    requires Shape(f) && LabelFree(f.domain) && LabelFree(f.statement) && LabelFree(f.uri) && f.chainId >= 0
    ensures First(NONCE, TemplateLines(f)[..8]) == None
  {
    Labels();
    HeadLinesClean(f, NONCE, "Nonce:");
    ContainsNeedsLetter("Nonce:", ToDecimal(f.chainId));
    FixedPart(NONCE, "Nonce:", "Chain ID: ", ToDecimal(f.chainId));
    NoneFirst(NONCE, TemplateLines(f)[..8]);
  }

  lemma ExpiryClean(f: Fields)
    requires Shape(f) && LabelFree(f.domain) && LabelFree(f.statement) && LabelFree(f.uri) && LabelFree(f.issuedAt)
             && f.chainId >= 0
    ensures First(EXPIRY, TemplateLines(f)[..10]) == None
  {
    Labels();
    var name := "Expiration Time:";
    HeadLinesClean(f, EXPIRY, name);
    ContainsNeedsLetter(name, ToDecimal(f.chainId));
    FixedPart(EXPIRY, name, "Chain ID: ", ToDecimal(f.chainId));
    ContainsNeedsLetter(name, f.nonce);
    FixedPart(EXPIRY, name, "Nonce: ", f.nonce);
    FixedPart(EXPIRY, name, "Issued At: ", f.issuedAt);
    NoneFirst(EXPIRY, TemplateLines(f)[..10]);
  }

  /** Whatever the service prints with label-free fields and a plain domain, it reads back. */
  lemma LabelFreeRoundTrip(f: Fields)
    requires Shape(f) && DomainOk(f.domain) && f.chainId >= 0
    requires LabelFree(f.domain) && LabelFree(f.statement) && LabelFree(f.uri) && LabelFree(f.issuedAt)
    ensures Parse(Build(f)) == Parsed(Expected(f))
  {
    ChainClean(f);
    NonceClean(f);
    ExpiryClean(f);
    SearchAllLines(TemplateLines(f)[..7]);
    RoundTrip(f);
  }

  /** A nonce planted in the statement is the one that gets checked. */
  lemma PlantedNonceWins(f: Fields, planted: string)
    requires Shape(f) && LabelFree(f.domain) && planted != "" && All(IsLowerHex, planted)
    requires f.statement == "Nonce: " + planted
    ensures Search(NONCE, Build(f)) == Some(planted)
    ensures planted != f.nonce ==> !Faithful(f)
  {
    Labels();
    DomainLineClean(NONCE, "Nonce:", f.domain);
    AddressClean(NONCE, "Nonce:", f.address);
    NoColonLine(NONCE, "Nonce:", "");
    TemplateOneLine(f);
    OwnLine(NONCE, planted);
    DecoyWins(NONCE, TemplateLines(f), 3, 8, planted);
  }

  /** The first line that matches decides, for the text as a whole and for any prefix of lines that includes it. */
  lemma DecoyWins(p: Pattern, ls: seq<string>, k: nat, n: nat, value: string)
    requires LinePattern(p) && k < n <= |ls| && (forall l <- ls :: OneLine(l))
    requires forall i :: 0 <= i < k ==> Search(p, ls[i]) == None
    requires Search(p, ls[k]) == Some(value)
    ensures Search(p, Join(ls)) == Some(value) && First(p, ls[..n]) == Some(value)
  {
    NoneFirst(p, ls[..k]);
    SearchJoin(p, ls);
    assert ls == ls[..k] + ls[k..] && ls[..n] == ls[..k] + ls[k..n];
    FirstAppend(p, ls[..k], ls[k..]);
    FirstAppend(p, ls[..k], ls[k..n]);
  }

  /** No match begins in `x` if the label's name is not in `x` and its first letter starts only `rest`. */
  lemma {:induction false} SkipTo(p: Pattern, name: string, x: string, rest: string)
    requires Labelled(p, name) && !Contains(name, x) && name <= rest
    requires forall i :: 0 < i < |name| ==> name[i] != name[0]
    ensures Search(p, x + rest) == Search(p, rest)
  {
    var s := x + rest;
    if x == "" {
      assert s == rest;
    } else {
      assert s[1..] == x[1..] + rest;
      SkipTo(p, name, x[1..], rest);
      assert p.tag[..|name|] == name;
      if |x| < |name| {
        assert s[|x|] == rest[0] == name[0] && p.tag[|x|] == name[|x|];
      } else {
        assert s[..|name|] == x[..|name|];
      }
    }
  }

  /**
   * A domain that merely ends in "Expiration Time:" turns the rest of the greeting into the
   * expiration time.
   */
  lemma GreetingBecomesExpiry(f: Fields, x: string, value: string)
    requires Shape(f) && f.domain == x + "Expiration Time:" && !Contains("Expiration Time:", x)
    requires value == (GREETING + REST)[1..]
    ensures Search(EXPIRY, Build(f)) == Some(value)
    ensures f.expirationTime != value ==> !Faithful(f)
  {
    hide Search, Contains, Shape, LinePattern, OneLine, Parse;
    GreetingLine(f.domain, x, value);
    TemplateOneLine(f);
    ExpiryLine();
    assert TemplateLines(f)[0] == f.domain + GREETING + REST;
    DecoyWins(EXPIRY, TemplateLines(f), 0, 10, value);
  }

  lemma ExpiryLine()
    ensures LinePattern(EXPIRY)
  {
  }

  lemma GreetingLine(domain: string, x: string, value: string)
    requires domain == x + "Expiration Time:" && !Contains("Expiration Time:", x) && value == (GREETING + REST)[1..]
    ensures Search(EXPIRY, domain + GREETING + REST) == Some(value)
  {
    hide Search, Contains;
    var rest := "Expiration Time:" + GREETING + REST;
    Labels();
    GreetingAfterColon(value);
    OwnLine(EXPIRY, value);
    SkipTo(EXPIRY, "Expiration Time:", x, rest);
    assert x + rest == domain + GREETING + REST;
  }

  lemma GreetingAfterColon(value: string)
    requires value == (GREETING + REST)[1..]
    ensures "Expiration Time:" + GREETING + REST == EXPIRY.tag + value
    ensures value != "" && All(IsDot, value)
  {
    assert GREETING[0] == ' ' && REST != "";
    assert "Expiration Time:" + " " == EXPIRY.tag;
    assert OneLine(GREETING) && OneLine(REST);
    Shifted("Expiration Time:", GREETING, REST);
  }

  lemma Shifted(x: string, a: string, b: string)
    requires a != "" && a[0] == ' ' && b != "" && OneLine(a) && OneLine(b)
    ensures x + a + b == (x + " ") + (a + b)[1..]
    ensures (a + b)[1..] != "" && All(IsDot, (a + b)[1..])
  {
  }
}
