/** The path of one analysis (services/reasoner/src/reasoner/orchestrator.py): redact the evidence, look in the
    cache, truncate what is sent, ask the language model, remember the answer. The model's reply and the clock are
    parameters. */
module Orchestrator {
  import opened Text
  import opened PromptKey
  import opened Redaction
  import opened RedactionMasks
  import Cache = PromptCache

  datatype Analysis = Analysis(rootCause: string, confidence: real, citations: seq<string>, actions: seq<string>,
                               unmatchedRunbook: bool, source: string, partial: bool)

  datatype Reply =
    | TimedOut
    | Failed(source: Option<string>)
    | Answered(rootCause: Option<string>, confidence: Option<real>, citations: Option<seq<string>>,
               actions: Option<seq<string>>)

  /** What the language model is asked; redacted is the evidence before it was cut. */
  datatype Request = Request(alert: string, namespace: string, redacted: Items, evidence: Items)

  /** Where an analysis stands when it returns or waits for the model. */
  datatype Begun = Hit(analysis: Analysis) | Waiting(request: Request, matched: bool)

  function Or<T>(x: Option<T>, default: T): T { if x.Some? then x.value else default }

  /** What a caller gets for a reply. */
  function Outcome(reply: Reply, unmatched: bool): Analysis {
    match reply
    case TimedOut => Analysis("timeout", 0.0, [], [], false, "timeout", true)
    case Failed(source) => Analysis("error", 0.0, [], [], false, Or(source, "error"), false)
    case Answered(rootCause, confidence, citations, actions) =>
      Analysis(Or(rootCause, "unknown"), Or(confidence, 0.0), Or(citations, []), Or(actions, []), unmatched,
               "llm", false)
  }

  /** What the caller gets, field by field. */
  lemma OutcomeExact(reply: Reply, unmatched: bool)
    ensures var a := Outcome(reply, unmatched);
      match reply
      case TimedOut =>
        a.rootCause == "timeout" && a.source == "timeout" && a.partial && a.confidence == 0.0
        && a.citations == [] && a.actions == [] && !a.unmatchedRunbook
      case Failed(source) =>
        a.rootCause == "error" && a.source == (if source == None then "error" else source.value) && !a.partial
        && a.confidence == 0.0 && a.citations == [] && a.actions == [] && !a.unmatchedRunbook
      case Answered(rootCause, confidence, citations, actions) =>
        a.rootCause == (if rootCause == None then "unknown" else rootCause.value)
        && a.confidence == (if confidence == None then 0.0 else confidence.value)
        && a.citations == (if citations == None then [] else citations.value)
        && a.actions == (if actions == None then [] else actions.value)
        && a.unmatchedRunbook == unmatched && a.source == "llm" && !a.partial
  {}

  /** `s[:n]`, where a negative n counts from the end. */
  function Slice(s: string, n: int): string {
    if n >= |s| then s
    else if n >= 0 then s[..n]
    else if |s| + n >= 0 then s[..|s| + n]
    else ""
  }

  function TruncateInput(maxInput: int, text: string): string {
    if |text| <= maxInput * 4 then text else Slice(text, maxInput * 4)
  }

  function TruncateDict(maxInput: int, evidence: Items): Items {
    SeqMap((e: (string, string)) => (e.0, TruncateInput(maxInput, e.1)), evidence)
  }

  /** A truncated text starts the text and fits the budget, exactly unless the budget is negative; it is the longest
      such text when it is not. */
  lemma TruncateExact(maxInput: int, text: string)
    ensures var r := TruncateInput(maxInput, text);
      && r <= text
      && (|r| <= maxInput * 4 <==> maxInput >= 0)
      && (r == text || maxInput < 0 || |r| == maxInput * 4)
      && (maxInput < 0 ==> |r| == if |text| + maxInput * 4 < 0 then 0 else |text| + maxInput * 4)
  {}

  lemma SameKeys(a: Items, b: Items)
    requires DistinctKeys(a) && |a| == |b| && forall i | 0 <= i < |a| :: a[i].0 == b[i].0
    ensures DistinctKeys(b)
  {}

  lemma RedactKeepsKeys(evidence: Items)
    requires DistinctKeys(evidence)
    ensures DistinctKeys(RedactDict(evidence))
  {
    hide Redact;
    SameKeys(evidence, RedactDict(evidence));
  }

  lemma SentValue(maxInput: int, text: string)
    ensures var r := TruncateInput(maxInput, Redact(text));
      && Cleansed(r) && (WellSpelled(text) ==> TokenFree(r)) && (|r| <= maxInput * 4 <==> maxInput >= 0)
      && r <= Redact(text) && (|Redact(text)| <= maxInput * 4 ==> r == Redact(text))
  {
    hide Redact, Cleansed, TokenFree, WellSpelled;
    var r := TruncateInput(maxInput, Redact(text));
    TruncateExact(maxInput, Redact(text));
    RedactedIsClean(text, |r|);
    assert Redact(text)[..|r|] == r;
  }

  /** Whatever the evidence, what is sent keeps its keys and order, and every value is clean and within the budget;
      it is free of API keys and bearer tokens too, unless the value spells a key word with one of the two letters. */
  lemma SentIsClean(maxInput: int, evidence: Items, i: nat)
    requires i < |evidence|
    ensures var out := TruncateDict(maxInput, RedactDict(evidence));
      && |out| == |evidence| && out[i].0 == evidence[i].0
      && out[i].1 <= Redact(evidence[i].1)
      && (|Redact(evidence[i].1)| <= maxInput * 4 ==> out[i].1 == Redact(evidence[i].1))
      && Cleansed(out[i].1)
      && (WellSpelled(evidence[i].1) ==> TokenFree(out[i].1))
      && (|out[i].1| <= maxInput * 4 <==> maxInput >= 0)
  {
    hide Redact, Cleansed, TokenFree, WellSpelled, TruncateInput;
    SentValue(maxInput, evidence[i].1);
    assert RedactDict(evidence)[i] == (evidence[i].0, Redact(evidence[i].1));
  }

  predicate CleanRequest(q: Request, maxInput: int) {
    && q.evidence == TruncateDict(maxInput, q.redacted)
    && (forall i | 0 <= i < |q.evidence| :: Cleansed(q.evidence[i].1))
    && (maxInput >= 0 ==> forall i | 0 <= i < |q.evidence| :: |q.evidence[i].1| <= maxInput * 4)
  }

  /** An answer was given to a request about this alert and this evidence. */
  ghost predicate Asked(sent: seq<Request>, alert: string, evidence: map<string, string>) {
    exists q :: q in sent && q.alert == alert && ToMap(q.redacted) == evidence
  }

  ghost predicate Remembered(r: Cache.Request<Analysis>, sent: seq<Request>) {
    r.SetRequest? ==> r.value.source == "llm" && !r.value.partial && Asked(sent, r.alert, r.evidence)
  }

  class ReasonerOrchestrator {
    const runbooks: seq<string>
    const maxInput: int
    const cache: Cache.PromptCache<Analysis>
    ghost var sent: seq<Request>

    ghost predicate Valid()
      reads this, cache
    {
      && cache.Valid()
      && (forall q <- sent :: CleanRequest(q, maxInput))
      && (forall r <- cache.log :: Remembered(r, sent))
    }

    constructor (runbooks: seq<string>, maxInput: int, ttl: real)
      ensures Valid() && fresh(cache) && cache.ttl == ttl && cache.log == [] && sent == []
      ensures this.runbooks == runbooks && this.maxInput == maxInput
    {
      this.runbooks := runbooks;
      this.maxInput := maxInput;
      this.cache := new Cache.PromptCache<Analysis>(ttl);
      sent := [];
    }

    method Matches(alert: string) returns (found: bool)
      ensures found <==> alert in runbooks
    {
      for i := 0 to |runbooks|
        invariant alert !in runbooks[..i]
      {
        if runbooks[i] == alert {
          return true;
        }
      }
      assert runbooks[..|runbooks|] == runbooks;
      return false;
    }

    method Truncate(evidence: Items) returns (r: Items)
      ensures r == TruncateDict(maxInput, evidence)
    {
      r := [];
      for i := 0 to |evidence|
        invariant r == TruncateDict(maxInput, evidence)[..i]
      {
        r := r + [(evidence[i].0, TruncateInput(maxInput, evidence[i].1))];
      }
    }

    /** Up to the call of the model: a cached answer, or the one request that is sent. */
    method BeginAnalyze(alert: string, namespace: string, evidence: Items, now: real) returns (r: Begun)
      requires Valid() && DistinctKeys(evidence)
      modifies this, cache
      ensures Valid()
      ensures var e := RedactDict(evidence);
        var hit := Cache.Answer(old(cache.log), alert, ToMap(e), now, cache.ttl);
        && cache.log == old(cache.log) + [Cache.GetRequest(alert, ToMap(e), now)]
        && (if hit.Some? then r == Hit(hit.value) && sent == old(sent)
            else && r == Waiting(Request(alert, namespace, e, TruncateDict(maxInput, e)), alert in runbooks)
                 && sent == old(sent) + [r.request] && DistinctKeys(e))
      ensures r.Hit? ==>
        r.analysis.source == "llm" && !r.analysis.partial && Asked(sent, alert, ToMap(RedactDict(evidence)))
    {
      hide RedactDict, TruncateDict, ToMap;
      var matched := Matches(alert);
      var redacted := RedactDict(evidence);
      RedactKeepsKeys(evidence);
      var cached := cache.Get(alert, redacted, now);
      if cached.Some? {
        Cache.HeldWasSet(old(cache.log), alert, ToMap(redacted), cache.ttl);
        ghost var e := Cache.Held(old(cache.log), alert, ToMap(redacted), cache.ttl).value;
        assert Remembered(Cache.SetRequest(alert, ToMap(redacted), e.value, e.createdAt), sent);
        return Hit(cached.value);
      }
      var truncated := Truncate(redacted);
      var request := Request(alert, namespace, redacted, truncated);
      RequestIsClean(maxInput, evidence, request);
      sent := sent + [request];
      forall r | r in cache.log ensures Remembered(r, sent) {
        StillRemembered(r, old(sent), request);
      }
      return Waiting(request, matched);
    }

    /** From the model's reply on; any number of analyses may have begun and ended since the request was sent. */
    method EndAnalyze(request: Request, matched: bool, reply: Reply, now: real) returns (result: Analysis)
      requires Valid() && request in sent && DistinctKeys(request.redacted)
      modifies this, cache
      ensures Valid() && sent == old(sent)
      ensures result == Outcome(reply, !matched)
      ensures cache.log == old(cache.log)
        + (if reply.Answered? then [Cache.SetRequest(request.alert, ToMap(request.redacted), result, now)] else [])
    {
      result := Outcome(reply, !matched);
      if reply.Answered? {
        cache.Set(request.alert, request.redacted, result, now);
        assert Remembered(Cache.SetRequest(request.alert, ToMap(request.redacted), result, now), sent);
      }
    }

    method Analyze(alert: string, namespace: string, evidence: Items, reply: Reply, now: real, later: real)
      returns (result: Analysis)
      requires Valid() && DistinctKeys(evidence)
      modifies this, cache
      ensures Valid()
      ensures var e := RedactDict(evidence);
        var hit := Cache.Answer(old(cache.log), alert, ToMap(e), now, cache.ttl);
        var log := old(cache.log) + [Cache.GetRequest(alert, ToMap(e), now)];
        if hit.Some? then result == hit.value && sent == old(sent) && cache.log == log
        else && result == Outcome(reply, alert !in runbooks)
             && sent == old(sent) + [Request(alert, namespace, e, TruncateDict(maxInput, e))]
             && cache.log == log
                + (if reply.Answered? then [Cache.SetRequest(alert, ToMap(e), result, later)] else [])
    {
      var begun := BeginAnalyze(alert, namespace, evidence, now);
      match begun {
        case Hit(analysis) => result := analysis;
        case Waiting(request, matched) => result := EndAnalyze(request, matched, reply, later);
      }
    }
  }

  lemma RequestIsClean(maxInput: int, evidence: Items, q: Request)
    requires q.redacted == RedactDict(evidence) && q.evidence == TruncateDict(maxInput, q.redacted)
    ensures CleanRequest(q, maxInput)
  {
    forall i | 0 <= i < |q.evidence|
      ensures Cleansed(q.evidence[i].1) && (maxInput >= 0 ==> |q.evidence[i].1| <= maxInput * 4)
    {
      SentIsClean(maxInput, evidence, i);
    }
  }

  lemma StillRemembered(r: Cache.Request<Analysis>, sent: seq<Request>, q: Request)
    requires Remembered(r, sent)
    ensures Remembered(r, sent + [q])
  {
    if r.SetRequest? {
      var p :| p in sent && p.alert == r.alert && ToMap(p.redacted) == r.evidence;
      assert p in sent + [q];
    }
  }
}
