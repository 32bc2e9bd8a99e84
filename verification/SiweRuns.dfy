/**
 Whole-run theorems about sign-in: the store answers as its own history would, and every
 issued nonce is good for at most one sign-in.
 */
module SiweRuns {
  import opened Options
  import opened SiweMessage
  import opened SiweNonces

  datatype Event =
    | Generate(nonce: string, createdAt: real, cleanupAt: real)
    | Validate(nonce: string, at: real)
    | Verify(attempt: Attempt)

  /** The nonce an event presents to the store, if any. */
  function Presented(e: Event): Option<string> {
    match e
    case Generate(_, _, _) => None
    case Validate(n, _) => Some(n)
    case Verify(a) => if Parse(a.text).Parsed? then Some(Parse(a.text).message.nonce) else None
  }

  function ReadAt(e: Event): real {
    match e
    case Generate(_, c, _) => c
    case Validate(_, t) => t
    case Verify(a) => a.at
  }

  function DoneAt(e: Event): real {
    if e.Generate? then e.cleanupAt else ReadAt(e)
  }

  predicate Consumes(ttl: int, s: Nonces, e: Event) {
    Presented(e).Some? && Accepts(ttl, s, Presented(e).value, ReadAt(e))
  }

  function Step(ttl: int, s: Nonces, e: Event): Nonces {
    if e.Generate? then Sweep(ttl, s[e.nonce := Issued(e.createdAt, false)], e.cleanupAt)
    else if Presented(e).Some? then Validated(ttl, s, Presented(e).value, ReadAt(e))
    else s
  }

  datatype Entry = Entry(event: Event, consumed: bool)

  function After(ttl: int, es: seq<Event>): Nonces {
    if es == [] then map[] else Step(ttl, After(ttl, es[..|es| - 1]), es[|es| - 1])
  }

  function Log(ttl: int, es: seq<Event>): (log: seq<Entry>)
    ensures |log| == |es|
  {
    if es == [] then []
    else
      var front, e := es[..|es| - 1], es[|es| - 1];
      Log(ttl, front) + [Entry(e, Consumes(ttl, After(ttl, front), e))]
  }

  /** The clock never goes back: `now` is the last read so far. */
  predicate Timed(es: seq<Event>, now: real) {
    es == []
    || var front, e := es[..|es| - 1], es[|es| - 1];
       Timed(front, ReadAt(e)) && ReadAt(e) <= DoneAt(e) <= now
  }

  // ---------- The history rule ----------

  /** When `n` was last issued, unless it has been consumed since. */
  function Outstanding(log: seq<Entry>, n: string): Option<real> {
    if log == [] then None
    else
      var front, last := log[..|log| - 1], log[|log| - 1];
      if last.event.Generate? && last.event.nonce == n then Some(last.event.createdAt)
      else if last.consumed && Presented(last.event) == Some(n) then None
      else Outstanding(front, n)
  }

  predicate HistoryAccepts(ttl: int, log: seq<Entry>, n: string, t: real) {
    Outstanding(log, n).Some? && t - Outstanding(log, n).value <= ttl as real
  }

  /** The store keeps an outstanding nonce unused, or has dropped it because it is past its time. */
  predicate Agrees(ttl: int, s: Nonces, out: Option<real>, n: string, now: real) {
    match out
    case None => n in s ==> s[n].used
    case Some(g) => if n in s then s[n] == Issued(g, false) else now - g > ttl as real
  }

  lemma AgreesStep(ttl: int, s: Nonces, out: Option<real>, n: string, e: Event)
    requires Agrees(ttl, s, out, n, ReadAt(e)) && ReadAt(e) <= DoneAt(e)
    ensures var out' := if e.Generate? && e.nonce == n then Some(e.createdAt)
                        else if Consumes(ttl, s, e) && Presented(e) == Some(n) then None else out;
            Agrees(ttl, Step(ttl, s, e), out', n, DoneAt(e))
  {
  }

  lemma Snoc(ttl: int, es: seq<Event>, e: Event, n: string)
    ensures After(ttl, es + [e]) == Step(ttl, After(ttl, es), e)
    ensures Log(ttl, es + [e]) == Log(ttl, es) + [Entry(e, Consumes(ttl, After(ttl, es), e))]
    ensures Outstanding(Log(ttl, es + [e]), n)
         == if e.Generate? && e.nonce == n then Some(e.createdAt)
            else if Consumes(ttl, After(ttl, es), e) && Presented(e) == Some(n) then None
            else Outstanding(Log(ttl, es), n)
  {
  }

  lemma {:induction false} RunAgrees(ttl: int, es: seq<Event>, n: string, now: real)
    requires Timed(es, now)
    ensures Agrees(ttl, After(ttl, es), Outstanding(Log(ttl, es), n), n, now)
  {
    if es != [] {
      var front, e := es[..|es| - 1], es[|es| - 1];
      RunAgrees(ttl, front, n, ReadAt(e));
      AgreesStep(ttl, After(ttl, front), Outstanding(Log(ttl, front), n), n, e);
      assert front + [e] == es;
      Snoc(ttl, front, e, n);
    }
  }

  /**
   * The store matches its history: a nonce is accepted exactly if it was issued at most the
   * TTL ago and not consumed since, whatever was cleaned up in between.
   */
  lemma AcceptsMatchesHistory(ttl: int, es: seq<Event>, n: string, t: real)
    requires Timed(es, t)
    ensures Accepts(ttl, After(ttl, es), n, t) <==> HistoryAccepts(ttl, Log(ttl, es), n, t)
  {
    RunAgrees(ttl, es, n, t);
  }

  // ---------- With fresh nonces, in plain terms ----------

  predicate Fresh(es: seq<Event>) {
    forall i, j :: 0 <= i < j < |es| && es[i].Generate? && es[j].Generate? ==> es[i].nonce != es[j].nonce
  }

  predicate IssuedIn(es: seq<Event>, n: string, t: real, ttl: int) {
    exists i :: 0 <= i < |es| && es[i].Generate? && es[i].nonce == n && t - es[i].createdAt <= ttl as real
  }

  predicate ConsumedIn(log: seq<Entry>, n: string) {
    exists i :: 0 <= i < |log| && log[i].consumed && Presented(log[i].event) == Some(n)
  }

  /** A nonce never generated can never have been consumed. */
  lemma {:induction false} ConsumedWasGenerated(ttl: int, es: seq<Event>, n: string)
    requires forall i :: 0 <= i < |es| && es[i].Generate? ==> es[i].nonce != n
    ensures n !in After(ttl, es) && !ConsumedIn(Log(ttl, es), n) && Outstanding(Log(ttl, es), n) == None
  {
    if es != [] {
      var front, e := es[..|es| - 1], es[|es| - 1];
      ConsumedWasGenerated(ttl, front, n);
      assert front + [e] == es;
      Snoc(ttl, front, e, n);
    }
  }

  lemma IssuedSnoc(es: seq<Event>, e: Event, n: string, t: real, ttl: int)
    ensures IssuedIn(es + [e], n, t, ttl)
       <==> IssuedIn(es, n, t, ttl) || (e.Generate? && e.nonce == n && t - e.createdAt <= ttl as real)
  {
    var all := es + [e];
    assert all[|es|] == e && forall i :: 0 <= i < |es| ==> all[i] == es[i];
  }

  lemma ConsumedSnoc(log: seq<Entry>, x: Entry, n: string)
    ensures ConsumedIn(log + [x], n) <==> ConsumedIn(log, n) || (x.consumed && Presented(x.event) == Some(n))
  {
    var all := log + [x];
    assert all[|log|] == x && forall i :: 0 <= i < |log| ==> all[i] == log[i];
  }

  lemma FreshFront(es: seq<Event>, e: Event)
    requires Fresh(es + [e])
    ensures Fresh(es)
    ensures e.Generate? ==> forall i :: 0 <= i < |es| && es[i].Generate? ==> es[i].nonce != e.nonce
  {
    var all := es + [e];
    assert all[|es|] == e && forall i :: 0 <= i < |es| ==> all[i] == es[i];
  }

  lemma {:induction false} FreshOutstanding(ttl: int, es: seq<Event>, n: string, t: real)
    requires Fresh(es)
    ensures HistoryAccepts(ttl, Log(ttl, es), n, t) <==> IssuedIn(es, n, t, ttl) && !ConsumedIn(Log(ttl, es), n)
  {
    if es != [] {
      var front, e := es[..|es| - 1], es[|es| - 1];
      assert front + [e] == es;
      FreshFront(front, e);
      FreshOutstanding(ttl, front, n, t);
      Snoc(ttl, front, e, n);
      IssuedSnoc(front, e, n, t, ttl);
      ConsumedSnoc(Log(ttl, front), Entry(e, Consumes(ttl, After(ttl, front), e)), n);
      if e.Generate? && e.nonce == n {
        ConsumedWasGenerated(ttl, front, n);
      }
    }
  }

  /** With fresh nonces: accepted exactly if generated within the TTL and never consumed before. */
  lemma FreshAccepts(ttl: int, es: seq<Event>, n: string, t: real)
    requires Timed(es, t) && Fresh(es)
    ensures Accepts(ttl, After(ttl, es), n, t) <==> IssuedIn(es, n, t, ttl) && !ConsumedIn(Log(ttl, es), n)
  {
    AcceptsMatchesHistory(ttl, es, n, t);
    FreshOutstanding(ttl, es, n, t);
  }

  // ---------- At most one sign-in per issued nonce ----------

  function Generations(es: seq<Event>, n: string): nat {
    if es == [] then 0
    else
      var e := es[|es| - 1];
      Generations(es[..|es| - 1], n) + (if e.Generate? && e.nonce == n then 1 else 0)
  }

  /** Sign-ins whose message carried nonce `n`. */
  function SignIns(ttl: int, es: seq<Event>, n: string): nat {
    if es == [] then 0
    else
      var front, e := es[..|es| - 1], es[|es| - 1];
      SignIns(ttl, front, n)
      + (if e.Verify? && Presented(e) == Some(n)
            && OutcomeOf(ttl, After(ttl, front), e.attempt).SignedIn? then 1 else 0)
  }

  /** Every sign-in uses up one issue of its nonce; one that is still outstanding is not used up yet. */
  lemma {:induction false} SignInsBounded(ttl: int, es: seq<Event>, n: string, now: real)
    requires Timed(es, now)
    ensures SignIns(ttl, es, n) + (if Outstanding(Log(ttl, es), n).Some? then 1 else 0) <= Generations(es, n)
  {
    if es != [] {
      var front, e := es[..|es| - 1], es[|es| - 1];
      SignInsBounded(ttl, front, n, ReadAt(e));
      RunAgrees(ttl, front, n, ReadAt(e));
      assert front + [e] == es;
      Snoc(ttl, front, e, n);
    }
  }

  lemma {:induction false} FreshGenerations(es: seq<Event>, n: string)
    requires Fresh(es)
    ensures Generations(es, n) <= 1
    ensures Generations(es, n) == 0 ==> forall i :: 0 <= i < |es| && es[i].Generate? ==> es[i].nonce != n
    ensures (forall i :: 0 <= i < |es| && es[i].Generate? ==> es[i].nonce != n) ==> Generations(es, n) == 0
  {
    if es != [] {
      var front, e := es[..|es| - 1], es[|es| - 1];
      FreshGenerations(front, n);
      assert forall i :: 0 <= i < |front| ==> front[i] == es[i];
    }
  }

  /** Over any run with fresh nonces a nonce signs in at most once, and only if the server issued it. */
  lemma OneSignInPerNonce(ttl: int, es: seq<Event>, n: string, now: real)
    requires Timed(es, now) && Fresh(es)
    ensures SignIns(ttl, es, n) <= 1
    ensures SignIns(ttl, es, n) == 1 ==> exists i :: 0 <= i < |es| && es[i].Generate? && es[i].nonce == n
  {
    SignInsBounded(ttl, es, n, now);
    FreshGenerations(es, n);
  }

  /** A sign-in always presents a nonce the server issued no longer than the TTL before. */
  lemma SignInWasIssued(ttl: int, es: seq<Event>, a: Attempt)
    requires Timed(es, a.at) && OutcomeOf(ttl, After(ttl, es), a).SignedIn?
    ensures Presented(Verify(a)).Some? && HistoryAccepts(ttl, Log(ttl, es), Presented(Verify(a)).value, a.at)
  {
    AcceptsMatchesHistory(ttl, es, Presented(Verify(a)).value, a.at);
  }

  lemma {:induction false} StaysSpent(ttl: int, es: seq<Event>, later: seq<Event>, n: string)
    requires Outstanding(Log(ttl, es), n) == None
    requires forall i :: 0 <= i < |later| && later[i].Generate? ==> later[i].nonce != n
    ensures Outstanding(Log(ttl, es + later), n) == None
    decreases |later|
  {
    if later == [] {
      assert es + later == es;
    } else {
      var front, e := later[..|later| - 1], later[|later| - 1];
      StaysSpent(ttl, es, front, n);
      assert es + front + [e] == es + later;
      Snoc(ttl, es + front, e, n);
    }
  }

  /**
   * The nonce is consumed before the later checks run.  Once an attempt got past the nonce
   * check, with whatever outcome, every later attempt with that nonce ends in BadNonce,
   * until the same nonce is generated again.
   */
  lemma FailedAttemptSpendsNonce(ttl: int, es: seq<Event>, first: Attempt, later: seq<Event>, second: Attempt)
    requires Timed(es + [Verify(first)] + later, second.at)
    requires Presented(Verify(first)).Some? && Presented(Verify(second)) == Presented(Verify(first))
    requires OutcomeOf(ttl, After(ttl, es), first) != BadNonce
    requires forall i :: 0 <= i < |later| && later[i].Generate? ==> later[i].nonce != Presented(Verify(first)).value
    ensures OutcomeOf(ttl, After(ttl, es + [Verify(first)] + later), second) == BadNonce
  {
    var n := Presented(Verify(first)).value;
    Snoc(ttl, es, Verify(first), n);
    StaysSpent(ttl, es + [Verify(first)], later, n);
    AcceptsMatchesHistory(ttl, es + [Verify(first)] + later, n, second.at);
  }

  // ---------- Every outcome, for every text ----------

  /** Equal up to the case of ASCII letters. */
  predicate SameIgnoringCase(s: string, t: string) {
    |s| == |t| && forall i :: 0 <= i < |s| ==> SameLetter(s[i], t[i])
  }

  predicate SameLetter(c: char, d: char) {
    || c == d
    || ('A' <= c <= 'Z' && d as int == c as int + 32)
    || ('A' <= d <= 'Z' && c as int == d as int + 32)
  }

  lemma LowerIgnoresCase(s: string, t: string)
    ensures Lower(s) == Lower(t) <==> SameIgnoringCase(s, t)
  {
    if Lower(s) == Lower(t) {
      assert |Lower(s)| == |s| && |Lower(t)| == |t|;
      forall i | 0 <= i < |s| ensures SameLetter(s[i], t[i]) {
        assert Lower(s)[i] == Lower(t)[i];
      }
    }
  }

  /** The conditions of a sign-in with message `m`, in the order in which they are checked. */
  predicate NonceFits(ttl: int, es: seq<Event>, a: Attempt, m: Message) {
    HistoryAccepts(ttl, Log(ttl, es), m.nonce, a.at)
  }
  predicate InTime(a: Attempt, m: Message) {
    m.expirationTime.None? || m.expirationTime.value == "" || !a.expired
  }
  predicate DomainFits(a: Attempt, m: Message) {
    a.expectedDomain.None? || a.expectedDomain.value == "" || a.expectedDomain.value == m.domain
  }
  predicate ChainFits(a: Attempt, m: Message) {
    a.expectedChainId.None? || a.expectedChainId.value == 0 || a.expectedChainId.value == m.chainId
  }
  predicate SignerFits(a: Attempt, m: Message) {
    a.recovered.Some? && SameIgnoringCase(a.recovered.value, m.address)
  }

  /**
   * Whatever text a client sends: it is signed in, under the recovered address, if and only if
   * the text parses and every condition holds; and each refusal names the first that fails.
   */
  lemma OutcomeExactly(ttl: int, es: seq<Event>, a: Attempt, x: string)
    requires Timed(es, a.at)
    ensures var o := OutcomeOf(ttl, After(ttl, es), a);
            && (o == Malformed <==> !Parse(a.text).Parsed?)
            && (o == SignedIn(x) ==> Parse(a.text).Parsed?)
            && (Parse(a.text).Parsed? ==>
                  var m := Parse(a.text).message;
                  var nonce, time := NonceFits(ttl, es, a, m), InTime(a, m);
                  var domain, chain := DomainFits(a, m), ChainFits(a, m);
                  && (o == BadNonce <==> !nonce)
                  && (o == Expired <==> nonce && !time)
                  && (o == WrongDomain <==> nonce && time && !domain)
                  && (o == WrongChain <==> nonce && time && domain && !chain)
                  && (o == BadSignature <==> nonce && time && domain && chain && a.recovered == None)
                  && (o == WrongSigner
                      <==> nonce && time && domain && chain && a.recovered != None && !SignerFits(a, m))
                  && (o == SignedIn(x)
                      <==> nonce && time && domain && chain && SignerFits(a, m) && a.recovered == Some(x)))
  {
    hide LaterChecks, InTime, DomainFits, ChainFits, SignerFits, Parse;
    if Parse(a.text).Parsed? {
      AcceptsMatchesHistory(ttl, es, Parse(a.text).message.nonce, a.at);
      ChecksExactly(Parse(a.text).message, a, x);
    }
  }

  lemma ChecksExactly(m: Message, a: Attempt, x: string)
    ensures var o, time, domain, chain := LaterChecks(m, a), InTime(a, m), DomainFits(a, m), ChainFits(a, m);
            && o != Malformed && o != BadNonce
            && (o == Expired <==> !time)
            && (o == WrongDomain <==> time && !domain)
            && (o == WrongChain <==> time && domain && !chain)
            && (o == BadSignature <==> time && domain && chain && a.recovered == None)
            && (o == WrongSigner <==> time && domain && chain && a.recovered != None && !SignerFits(a, m))
            && (o == SignedIn(x) <==> time && domain && chain && SignerFits(a, m) && a.recovered == Some(x))
  {
    hide Lower, SameIgnoringCase;
    if a.recovered.Some? { LowerIgnoresCase(a.recovered.value, m.address); }
  }

  // ---------- From printing to signing in ----------

  /**
   * The whole flow.  A faithful message printed by the service signs its signer in if and only
   * if its nonce is outstanding within the TTL, it has not expired, the caller's expectations
   * match the printed domain and chain, and the recovered signer is the printed address.
   */
  lemma PrintedMessageSignsIn(ttl: int, es: seq<Event>, f: Fields, a: Attempt, signer: string)
    requires Shape(f) && Faithful(f) && a.text == Build(f) && Timed(es, a.at)
    ensures OutcomeOf(ttl, After(ttl, es), a) == SignedIn(signer)
       <==> && HistoryAccepts(ttl, Log(ttl, es), f.nonce, a.at)
            && !a.expired
            && (a.expectedDomain in {None, Some(""), Some(f.domain)})
            && (a.expectedChainId in {None, Some(0), Some(f.chainId)})
            && a.recovered == Some(signer) && Lower(signer) == Lower(f.address)
  {
    RoundTrip(f);
    AcceptsMatchesHistory(ttl, es, f.nonce, a.at);
  }
}
