/** chain.py: providers tried in order, with a cooldown for those that refused a connection. What each
    provider would do, and the clock readings around it, are inputs. */
module FallbackChain {
  import opened Prelude

  type Name = int
  type ModelId = int

  const UNAVAILABLE_COOLDOWN := 120.0

  datatype Outcome = Answer(result: int) | RateLimited | Unavailable | Failed

  /** One provider's part in one chat: the clock at the cooldown check, its answer, the clock after it. */
  datatype Turn = Turn(check: real, outcome: Outcome, after: real)

  datatype Chain = Chain(names: seq<Name>, cooldown: real, fallbackModels: map<Name, ModelId>)

  datatype Request = Request(model: ModelId, turns: seq<Turn>)

  datatype Call = Call(provider: nat, model: ModelId)

  datatype Progress = Progress(until: map<Name, real>, calls: seq<Call>, errors: seq<nat>, skipped: seq<nat>,
                               answer: Option<int>)

  predicate Cooling(until: map<Name, real>, name: Name, now: real) {
    name in until && now < until[name]
  }

  /** A fallback cannot serve the primary's model identifier. */
  function ModelFor(c: Chain, r: Request, i: nat): ModelId
    requires i < |c.names|
  {
    if i == 0 || c.names[i] !in c.fallbackModels then r.model else c.fallbackModels[c.names[i]]
  }

  function Called(c: Chain, r: Request, p: Progress, i: nat): Progress
    requires i < |c.names| == |r.turns|
  {
    var q := p.(calls := p.calls + [Call(i, ModelFor(c, r, i))]);
    match r.turns[i].outcome
    case Answer(x) => q.(answer := Some(x))
    case Unavailable => q.(until := p.until[c.names[i] := r.turns[i].after + c.cooldown], errors := p.errors + [i])
    case _ => q.(errors := p.errors + [i])
  }

  predicate Skips(c: Chain, r: Request, p: Progress, i: nat)
    requires i < |c.names| == |r.turns|
  {
    Cooling(p.until, c.names[i], r.turns[i].check) && (i + 1 < |c.names| || p.errors != [])
  }

  function Visit(c: Chain, r: Request, p: Progress, i: nat): Progress
    requires i < |c.names| == |r.turns|
  {
    if p.answer.Some? then p
    else if Skips(c, r, p, i) then p.(skipped := p.skipped + [i])
    else Called(c, r, p, i)
  }

  /** The chat after its first `i` providers. */
  function Upto(c: Chain, r: Request, until: map<Name, real>, i: nat): Progress
    requires i <= |c.names| == |r.turns|
  {
    if i == 0 then Progress(until, [], [], [], None) else Visit(c, r, Upto(c, r, until, i - 1), i - 1)
  }

  function Chat(c: Chain, r: Request, until: map<Name, real>): Progress
    requires |c.names| == |r.turns|
  {
    Upto(c, r, until, |c.names|)
  }

  datatype LLMError = NoProvider | EveryProviderFailed(errors: seq<nat>)

  class Fallback {
    const chain: Chain
    var until: map<Name, real>

    constructor (chain: Chain)
      requires chain.names != []
      ensures this.chain == chain && until == map[]
    {
      this.chain := chain;
      until := map[];
    }

    method Ask(r: Request) returns (reply: Result<int, LLMError>, calls: seq<Call>)
      requires |chain.names| == |r.turns|
      modifies this`until
      ensures var end := Chat(chain, r, old(until));
              until == end.until && calls == end.calls &&
              reply == if end.answer.Some? then Ok(end.answer.value) else Err(EveryProviderFailed(end.errors))
    {
      var errors: seq<nat>, skipped: seq<nat> := [], [];
      calls := [];
      for i := 0 to |chain.names|
        invariant Upto(chain, r, old(until), i) == Progress(until, calls, errors, skipped, None)
      {
        ghost var p := Progress(until, calls, errors, skipped, None);
        if Cooling(until, chain.names[i], r.turns[i].check) && (i + 1 < |chain.names| || errors != []) {
          skipped := skipped + [i];
        } else {
          calls := calls + [Call(i, ModelFor(chain, r, i))];
          match r.turns[i].outcome
          case Answer(x) =>
            AnswerIsFinal(chain, r, old(until), i + 1, |chain.names|);
            return Ok(x), calls;
          case RateLimited =>
            errors := errors + [i];
          case Unavailable =>
            until := until[chain.names[i] := r.turns[i].after + chain.cooldown];
            errors := errors + [i];
          case Failed =>
            errors := errors + [i];
        }
      }
      reply := Err(EveryProviderFailed(errors));
    }
  }

  /** The constructor's check. */
  method MakeChain(names: seq<Name>, cooldown: Option<real>, fallbackModels: map<Name, ModelId>)
    returns (r: Result<Fallback, LLMError>)
    ensures names == [] <==> r == Err(NoProvider)
    ensures r.Ok? ==> r.value.until == map[]
    ensures r.Ok? ==>
      r.value.chain == Chain(names, if cooldown.Some? then cooldown.value else UNAVAILABLE_COOLDOWN, fallbackModels)
  {
    if names == [] {
      return Err(NoProvider);
    }
    var seconds := if cooldown.Some? then cooldown.value else UNAVAILABLE_COOLDOWN;
    var fallback := new Fallback(Chain(names, seconds, fallbackModels));
    r := Ok(fallback);
  }

  lemma {:induction false} AnswerIsFinal(c: Chain, r: Request, until: map<Name, real>, i: nat, n: nat)
    requires i <= n <= |c.names| == |r.turns| && Upto(c, r, until, i).answer.Some?
    ensures Upto(c, r, until, n) == Upto(c, r, until, i)
  {
    if i >= n {
    } else {
      AnswerIsFinal(c, r, until, i, n - 1);
    }
  }

  // ---- one chat ----

  /** Provider `i` is called in this chat. */
  predicate IsCalled(c: Chain, r: Request, until: map<Name, real>, i: nat)
    requires i < |c.names| == |r.turns|
  {
    var p := Upto(c, r, until, i);
    p.answer.None? && !Skips(c, r, p, i)
  }

  /** Provider `i` is cooling down when its turn comes. */
  predicate IsCooling(c: Chain, r: Request, until: map<Name, real>, i: nat)
    requires i < |c.names| == |r.turns|
  {
    var u, name := Upto(c, r, until, i).until, c.names[i];
    name in u && r.turns[i].check < u[name]
  }

  lemma {:induction false} EveryCallIsCounted(c: Chain, r: Request, until: map<Name, real>, i: nat)
    requires i <= |c.names| == |r.turns|
    ensures var p := Upto(c, r, until, i); |p.calls| == |p.errors| + if p.answer.Some? then 1 else 0
  {
    if i == 0 {
    } else {
      EveryCallIsCounted(c, r, until, i - 1);
    }
  }

  /** The calls made are exactly those of the providers whose turn was neither skipped nor too late, and only
      the first provider is asked for the caller's model. */
  lemma {:induction false} CallsAreTurns(c: Chain, r: Request, until: map<Name, real>, n: nat, call: Call)
    requires n <= |c.names| == |r.turns|
    ensures call in Upto(c, r, until, n).calls <==>
            call.provider < n && IsCalled(c, r, until, call.provider) &&
            call.model == (if call.provider > 0 && c.names[call.provider] in c.fallbackModels
                           then c.fallbackModels[c.names[call.provider]] else r.model)
  {
    if n == 0 {
    } else {
      hide Skips;
      CallsAreTurns(c, r, until, n - 1, call);
      var p := Upto(c, r, until, n - 1);
      var last := Call(n - 1, ModelFor(c, r, n - 1));
      assert IsCalled(c, r, until, n - 1) ==> Upto(c, r, until, n).calls == p.calls + [last];
      assert !IsCalled(c, r, until, n - 1) ==> Upto(c, r, until, n).calls == p.calls;
    }
  }

  /** A non-empty chain calls at least one provider in every chat. */
  lemma SomeoneIsCalled(c: Chain, r: Request, until: map<Name, real>)
    requires |c.names| == |r.turns| && c.names != []
    ensures Chat(c, r, until).calls != []
  {
    EveryCallIsCounted(c, r, until, |c.names| - 1);
    EveryCallIsCounted(c, r, until, |c.names|);
  }

  /** A provider that is cooling down is called only as the last resort: it is last in the chain and nobody
      before it was called. */
  lemma CoolingOnlyAsLastResort(c: Chain, r: Request, until: map<Name, real>, i: nat)
    requires i < |c.names| == |r.turns| && IsCooling(c, r, until, i)
    ensures IsCalled(c, r, until, i) <==> i == |c.names| - 1 && Upto(c, r, until, i).calls == []
  {
    EveryCallIsCounted(c, r, until, i);
  }

  lemma {:induction false} AnswerCameFrom(c: Chain, r: Request, until: map<Name, real>, n: nat) returns (i: nat)
    requires n <= |c.names| == |r.turns| && Upto(c, r, until, n).answer.Some?
    ensures i < n && IsCalled(c, r, until, i) && r.turns[i].outcome == Answer(Upto(c, r, until, n).answer.value)
  {
    var p := Upto(c, r, until, n - 1);
    if p.answer.Some? {
      i := AnswerCameFrom(c, r, until, n - 1);
    } else {
      i := n - 1;
    }
  }

  lemma CalledAnswerEnds(c: Chain, r: Request, until: map<Name, real>, i: nat, n: nat)
    requires i < n <= |c.names| == |r.turns| && IsCalled(c, r, until, i) && r.turns[i].outcome.Answer?
    ensures Upto(c, r, until, n).answer == Some(r.turns[i].outcome.result)
  {
    assert Upto(c, r, until, i + 1).answer == Some(r.turns[i].outcome.result);
    AnswerIsFinal(c, r, until, i + 1, n);
  }

  /** The first called provider that answers wins; nobody after it is called. */
  lemma FirstAnswerWins(c: Chain, r: Request, until: map<Name, real>, i: nat, j: nat)
    requires i < |c.names| == |r.turns| && IsCalled(c, r, until, i) && r.turns[i].outcome.Answer?
    requires i < j < |c.names|
    ensures Chat(c, r, until).answer == Some(r.turns[i].outcome.result) && !IsCalled(c, r, until, j)
  {
    CalledAnswerEnds(c, r, until, i, |c.names|);
    CalledAnswerEnds(c, r, until, i, j);
  }

  /** The chain gives up exactly when every provider was either called without answering or left out while cooling. */
  lemma GivesUpOnlyWhenAllFailed(c: Chain, r: Request, until: map<Name, real>)
    requires |c.names| == |r.turns|
    ensures Chat(c, r, until).answer.None? <==>
            forall i :: 0 <= i < |c.names| ==>
              if IsCalled(c, r, until, i) then !r.turns[i].outcome.Answer? else IsCooling(c, r, until, i)
  {
    var n := |c.names|;
    if Chat(c, r, until).answer.None? {
      forall i | 0 <= i < n
        ensures if IsCalled(c, r, until, i) then !r.turns[i].outcome.Answer? else IsCooling(c, r, until, i)
      {
        if Upto(c, r, until, i).answer.Some? {
          AnswerIsFinal(c, r, until, i, n);
        }
        if IsCalled(c, r, until, i) && r.turns[i].outcome.Answer? {
          CalledAnswerEnds(c, r, until, i, n);
        }
      }
    } else {
      var i := AnswerCameFrom(c, r, until, n);
    }
  }

  lemma TurnMovesOn(c: Chain, r: Request, until: map<Name, real>, n: nat)
    requires n < |c.names| == |r.turns|
    ensures var p, q := Upto(c, r, until, n), Upto(c, r, until, n + 1);
            && (q.answer.None? <==> p.answer.None? && !(IsCalled(c, r, until, n) && r.turns[n].outcome.Answer?))
            && (q.calls == [] <==> p.calls == [] && !IsCalled(c, r, until, n))
  {
    hide Skips, ModelFor;
  }

  lemma {:induction false} NoAnswerYet(c: Chain, r: Request, until: map<Name, real>, n: nat)
    requires n <= |c.names| == |r.turns|
    ensures Upto(c, r, until, n).answer.None? <==>
            forall j :: 0 <= j < n ==> !(IsCalled(c, r, until, j) && r.turns[j].outcome.Answer?)
    ensures Upto(c, r, until, n).calls == [] <==> forall j :: 0 <= j < n ==> !IsCalled(c, r, until, j)
  {
    hide IsCalled;
    if n == 0 {
    } else {
      hide Upto;
      NoAnswerYet(c, r, until, n - 1);
      TurnMovesOn(c, r, until, n - 1);
    }
  }

  /** Who is called: everyone whom no answer has preceded and who is not cooling down, and the last of the chain even
      then, when nobody before was called. */
  lemma CalledIff(c: Chain, r: Request, until: map<Name, real>, i: nat)
    requires i < |c.names| == |r.turns|
    ensures IsCalled(c, r, until, i) <==>
            (forall j :: 0 <= j < i && IsCalled(c, r, until, j) ==> !r.turns[j].outcome.Answer?) &&
            (IsCooling(c, r, until, i) ==> i == |c.names| - 1 && forall j :: 0 <= j < i ==> !IsCalled(c, r, until, j))
  {
    NoAnswerYet(c, r, until, i);
    EveryCallIsCounted(c, r, until, i);
    hide Upto;
  }

  /** The failures reported are those of the providers that were called and did not answer. */
  lemma {:induction false} ErrorsAreFailures(c: Chain, r: Request, until: map<Name, real>, n: nat, i: nat)
    requires n <= |c.names| == |r.turns|
    ensures i in Upto(c, r, until, n).errors <==> i < n && IsCalled(c, r, until, i) && !r.turns[i].outcome.Answer?
  {
    if n == 0 {
    } else {
      hide Skips, ModelFor;
      ErrorsAreFailures(c, r, until, n - 1, i);
      var p := Upto(c, r, until, n - 1);
      assert IsCalled(c, r, until, n - 1) ==> Upto(c, r, until, n) == Called(c, r, p, n - 1);
      assert !IsCalled(c, r, until, n - 1) ==> Upto(c, r, until, n).errors == p.errors;
    }
  }

  predicate Refuses(c: Chain, r: Request, until: map<Name, real>, i: nat, name: Name)
    requires i < |c.names| == |r.turns|
  {
    c.names[i] == name && IsCalled(c, r, until, i) && r.turns[i].outcome.Unavailable?
  }

  predicate NoRefusal(c: Chain, r: Request, until: map<Name, real>, from: nat, n: nat, name: Name)
    requires n <= |c.names| == |r.turns|
  {
    forall j :: from <= j < n ==> !Refuses(c, r, until, j, name)
  }

  predicate LatestRefusal(c: Chain, r: Request, until: map<Name, real>, i: nat, n: nat, name: Name)
    requires n <= |c.names| == |r.turns|
  {
    i < n && Refuses(c, r, until, i, name) && NoRefusal(c, r, until, i + 1, n, name)
  }

  lemma TurnMovesCooldown(c: Chain, r: Request, until: map<Name, real>, n: nat, name: Name)
    requires n < |c.names| == |r.turns|
    ensures var u, v := Upto(c, r, until, n).until, Upto(c, r, until, n + 1).until;
            if Refuses(c, r, until, n, name) then name in v && v[name] == r.turns[n].after + c.cooldown
            else (name in v <==> name in u) && (name in v ==> v[name] == u[name])
  {
    hide ModelFor;
  }

  /** A name cools down until one cooldown after its latest refusal, and nothing else changes a cooldown. */
  lemma {:induction false} CooldownsAreRefusals(c: Chain, r: Request, until: map<Name, real>, n: nat, name: Name)
    requires n <= |c.names| == |r.turns|
    ensures var u := Upto(c, r, until, n).until;
            NoRefusal(c, r, until, 0, n, name) ==> (name in u <==> name in until) && (name in u ==> u[name] == until[name])
    ensures var u := Upto(c, r, until, n).until;
            forall i: nat :: LatestRefusal(c, r, until, i, n, name) ==> name in u && u[name] == r.turns[i].after + c.cooldown
  {
    hide Refuses;
    if n == 0 {
      assert Upto(c, r, until, 0).until == until;
    } else {
      hide Upto;
      CooldownsAreRefusals(c, r, until, n - 1, name);
      TurnMovesCooldown(c, r, until, n - 1, name);
      forall i: nat | LatestRefusal(c, r, until, i, n, name)
        ensures i < n - 1 ==> LatestRefusal(c, r, until, i, n - 1, name)
        ensures i < n - 1 ==> !Refuses(c, r, until, n - 1, name)
      {
      }
      assert NoRefusal(c, r, until, 0, n, name) ==> NoRefusal(c, r, until, 0, n - 1, name);
    }
  }

  // ---- cooldowns over many chats ----

  /** Clock readings of one chat, in order and none before `from`. */
  ghost predicate Ticks(r: Request, from: real) {
    (forall i :: 0 <= i < |r.turns| ==> from <= r.turns[i].check <= r.turns[i].after) &&
    forall i, j :: 0 <= i < j < |r.turns| ==> r.turns[i].after <= r.turns[j].check
  }

  /** No cooldown reaches further than one cooldown past `now`. */
  ghost predicate Capped(until: map<Name, real>, now: real, cooldown: real) {
    forall name :: name in until ==> until[name] <= now + cooldown
  }

  ghost predicate Extends(later: map<Name, real>, earlier: map<Name, real>) {
    forall name :: name in earlier ==> name in later && later[name] >= earlier[name]
  }

  function Clock(r: Request, from: real, i: nat): real
    requires i <= |r.turns|
  {
    if i == 0 then from else r.turns[i - 1].after
  }

  lemma {:induction false} CooldownsOnlyGrow(c: Chain, r: Request, until: map<Name, real>, from: real, i: nat)
    requires i <= |c.names| == |r.turns| && Ticks(r, from) && Capped(until, from, c.cooldown)
    ensures Capped(Upto(c, r, until, i).until, Clock(r, from, i), c.cooldown)
    ensures Extends(Upto(c, r, until, i).until, until)
  {
    if i == 0 {
    } else {
      hide Skips, ModelFor;
      CooldownsOnlyGrow(c, r, until, from, i - 1);
      assert Clock(r, from, i - 1) <= r.turns[i - 1].after;
    }
  }

  /** Within one chat, a refusal is remembered to the end. */
  lemma {:induction false} RefusalIsRemembered(c: Chain, r: Request, until: map<Name, real>, from: real, i: nat, n: nat)
    requires i < n <= |c.names| == |r.turns| && Ticks(r, from) && Capped(until, from, c.cooldown)
    requires IsCalled(c, r, until, i) && r.turns[i].outcome.Unavailable?
    ensures var u := Upto(c, r, until, n).until; c.names[i] in u && u[c.names[i]] >= r.turns[i].after + c.cooldown
  {
    if i >= n - 1 {
    } else {
      hide Skips, ModelFor;
      RefusalIsRemembered(c, r, until, from, i, n - 1);
      assert r.turns[i].after <= r.turns[n - 1].check <= r.turns[n - 1].after;
    }
  }

  ghost predicate Legal(c: Chain, run: seq<Request>) {
    forall i :: 0 <= i < |run| ==> |run[i].turns| == |c.names|
  }

  function UntilAfter(c: Chain, run: seq<Request>): map<Name, real>
    requires Legal(c, run)
  {
    if run == [] then map[] else Chat(c, run[|run| - 1], UntilAfter(c, run[..|run| - 1])).until
  }

  function EndOf(c: Chain, run: seq<Request>): real
    requires Legal(c, run) && c.names != []
  {
    if run == [] then 0.0 else Clock(run[|run| - 1], 0.0, |c.names|)
  }

  /** Chats one after the other, on a clock that never goes back and starts at or after zero. */
  ghost predicate Serial(c: Chain, run: seq<Request>)
    requires Legal(c, run) && c.names != []
  {
    run == [] || (Serial(c, run[..|run| - 1]) && Ticks(run[|run| - 1], EndOf(c, run[..|run| - 1])))
  }

  lemma {:induction false} RunStaysCapped(c: Chain, run: seq<Request>)
    requires Legal(c, run) && c.names != [] && Serial(c, run)
    ensures Capped(UntilAfter(c, run), EndOf(c, run), c.cooldown)
  {
    if run == [] {
    } else {
      var n := |run| - 1;
      RunStaysCapped(c, run[..n]);
      CooldownsOnlyGrow(c, run[n], UntilAfter(c, run[..n]), EndOf(c, run[..n]), |c.names|);
    }
  }

  lemma {:induction false} RunRemembers(c: Chain, run: seq<Request>, k: nat, i: nat)
    requires Legal(c, run) && c.names != [] && Serial(c, run) && k < |run| && i < |c.names|
    requires IsCalled(c, run[k], UntilAfter(c, run[..k]), i) && run[k].turns[i].outcome.Unavailable?
    ensures var u := UntilAfter(c, run);
            c.names[i] in u && u[c.names[i]] >= run[k].turns[i].after + c.cooldown
  {
    hide IsCalled, Upto, Ticks;
    var n := |run| - 1;
    RunStaysCapped(c, run[..n]);
    if k == n {
      RefusalIsRemembered(c, run[n], UntilAfter(c, run[..n]), EndOf(c, run[..n]), i, |c.names|);
    } else {
      assert run[..n][..k] == run[..k];
      RunRemembers(c, run[..n], k, i);
      CooldownsOnlyGrow(c, run[n], UntilAfter(c, run[..n]), EndOf(c, run[..n]), |c.names|);
      var name := c.names[i];
      assert name in UntilAfter(c, run[..n]);
    }
  }

  /** Over any run of chats: within a cooldown of a refusal, a provider of that name is called in a later chat
      only as the last resort. */
  lemma RefusedProvidersRest(c: Chain, run: seq<Request>, k: nat, i: nat, m: nat, j: nat)
    requires Legal(c, run) && c.names != [] && Serial(c, run) && k < m < |run| && i < |c.names| && j < |c.names|
    requires IsCalled(c, run[k], UntilAfter(c, run[..k]), i) && run[k].turns[i].outcome.Unavailable?
    requires c.names[i] == c.names[j] && run[m].turns[j].check < run[k].turns[i].after + c.cooldown
    requires IsCalled(c, run[m], UntilAfter(c, run[..m]), j)
    ensures j == |c.names| - 1 && Upto(c, run[m], UntilAfter(c, run[..m]), j).calls == []
  {
    hide IsCalled, Upto, Ticks;
    SerialPrefix(c, run, m + 1);
    assert run[..m + 1][..m] == run[..m];
    assert run[..m][..k] == run[..k];
    RunRemembers(c, run[..m], k, i);
    RunStaysCapped(c, run[..m]);
    CooldownsOnlyGrow(c, run[m], UntilAfter(c, run[..m]), EndOf(c, run[..m]), j);
    CoolingOnlyAsLastResort(c, run[m], UntilAfter(c, run[..m]), j);
  }

  lemma {:induction false} SerialPrefix(c: Chain, run: seq<Request>, m: nat)
    requires Legal(c, run) && c.names != [] && Serial(c, run) && m <= |run|
    ensures Serial(c, run[..m])
  {
    if m < |run| {
      SerialPrefix(c, run[..|run| - 1], m);
      assert run[..|run| - 1][..m] == run[..m];
    } else {
      assert run[..m] == run;
    }
  }
}
