/** Trying a flow out on given keys, opening hours, queue state and business outcomes, for a limited number of steps. */
module IvrSimulator {
  import opened Seqs
  import opened Graphs
  import opened IvrGraph
  import opened IvrValidator

  /** The limit the program uses. Everything below holds for any limit. */
  const LIMIT: nat := 100

  datatype Trial = Trial(digits: string, open: bool, queueBusy: bool, outcomes: map<string, string>)

  datatype Visit = Visit(id: string, kind: Kind)

  datatype Result =
    | MissingNode(id: string) | ToQueue(queue: string) | HungUp | ToVoicemail | Undeclared | UnknownType | MissingEnd
    | TooLong

  datatype Sim =
    | Going(current: string, input: nat, invalid: nat, path: seq<Visit>)
    | Ended(path: seq<Visit>, result: Result)

  /** `choices[key]`: an own entry, the text of something inherited, or "" for nothing. */
  function Choice(d: Doc, choices: seq<(string, string)>, key: string): string {
    if choices == [] then (if key in d.inherited then d.inherited[key] else "")
    else if choices[0].0 == key then choices[0].1 else Choice(d, choices[1..], key)
  }

  function Outcome(d: Doc, t: Trial, action: string): Option<string> {
    if action in t.outcomes then Some(t.outcomes[action])
    else if action in d.inherited then Some(d.inherited[action]) else None
  }

  function Digit(t: Trial, input: nat): string { if input < |t.digits| then [t.digits[input]] else "" }

  function AcceptedKeys(n: Node): string { if n.kind.Csat? then "12345" else n.acceptedDigits }

  /** One pass of the loop, at a node that exists. */
  function AtNode(d: Doc, t: Trial, s: Sim, n: Node): Sim
    requires s.Going?
  {
    var path := s.path + [Visit(s.current, n.kind)];
    var key := Digit(t, s.input);
    match n.kind
    case RouteQueue => Ended(path, ToQueue(n.queueId))
    case Hangup => Ended(path, HungUp)
    case Voicemail => Ended(path, ToVoicemail)
    case Play => s.(path := path, current := n.next)
    case TimeCondition => s.(path := path, current := if t.open then n.open else n.closed)
    case QueueCondition => s.(path := path, current := if t.queueBusy then BusyTarget(n) else n.open)
    case BusinessAction =>
      (match Outcome(d, t, n.action)
       case None => s.(path := path, current := n.fallback)
       case Some(o) => if Choice(d, n.choices, o) == "" then Ended(path, Undeclared)
         else s.(path := path, current := Choice(d, n.choices, o)))
    case Menu =>
      if key == "" then s.(path := path, input := s.input + 1, current := n.fallback)
      else if Choice(d, n.choices, key) != "" then s.(path := path, input := s.input + 1, invalid := 0,
        current := Choice(d, n.choices, key))
      else
        var retries := if n.maxRetries.Some? then n.maxRetries.value else 2.0;
        s.(path := path, input := s.input + 1, invalid := s.invalid + 1,
           current := if (s.invalid + 1) as real >= retries then (if n.invalid != "" then n.invalid else n.fallback)
             else s.current)
    case UnknownKind => Ended(path, UnknownType)
    case InheritedKind => Ended(path, UnknownType)
    case _ =>
      if key != "" && key[0] in AcceptedKeys(n) then s.(path := path, input := s.input + 1, current := n.next)
      else if key == "" then s.(path := path, input := s.input + 1, current := n.fallback)
      else s.(path := path, input := s.input + 1)
  }

  function Advance(d: Doc, t: Trial, s: Sim): Sim {
    if s.Ended? then s
    else if s.current == "" then Ended(s.path, MissingEnd)
    else match Get(d, s.current)
      case None => Ended(s.path, MissingNode(s.current))
      case Some(n) => AtNode(d, t, s, n)
  }

  function After(d: Doc, t: Trial, k: nat): Sim {
    if k == 0 then Going(d.start, 0, 0, []) else Advance(d, t, After(d, t, k - 1))
  }

  function Simulated(d: Doc, t: Trial, limit: nat): (seq<Visit>, Result) {
    var s := After(d, t, limit);
    if s.Ended? then (s.path, s.result) else (s.path, if s.current == "" then MissingEnd else TooLong)
  }

  /** The simulation loop. */
  method SimulateIVR(d: Doc, t: Trial, limit: nat) returns (path: seq<Visit>, result: Result)
    ensures (path, result) == Simulated(d, t, limit)
    ensures Walked(d, t, path) && |path| <= limit && EndsWith(d, t, limit, path, result)
  {
    SimulationFollowsTheTrial(d, t, limit);
    hide Walked, EndsWith, Arrives;
    hide Choice, Outcome, Get, AcceptedKeys, BusyTarget, Digit;
    path := [];
    var current, input, invalid, step := d.start, 0, 0, 0;
    while current != "" && step < limit
      invariant 0 <= step <= limit
      invariant After(d, t, step) == Going(current, input, invalid, path)
    {
      var found := Get(d, current);
      if found.None? {
        result := MissingNode(current);
        StaysEnded(d, t, step + 1, limit);
        return;
      }
      var n := found.value;
      path := path + [Visit(current, n.kind)];
      var key := Digit(t, input);
      match n.kind {
        case RouteQueue =>
          result := ToQueue(n.queueId);
          StaysEnded(d, t, step + 1, limit);
          return;
        case Hangup =>
          result := HungUp;
          StaysEnded(d, t, step + 1, limit);
          return;
        case Voicemail =>
          result := ToVoicemail;
          StaysEnded(d, t, step + 1, limit);
          return;
        case Play => current := n.next;
        case TimeCondition => current := if t.open then n.open else n.closed;
        case QueueCondition => current := if t.queueBusy then BusyTarget(n) else n.open;
        case BusinessAction =>
          var o := Outcome(d, t, n.action);
          if o.Some? && Choice(d, n.choices, o.value) == "" {
            result := Undeclared;
            StaysEnded(d, t, step + 1, limit);
            return;
          }
          current := if o.None? then n.fallback else Choice(d, n.choices, o.value);
        case Menu =>
          input := input + 1;
          if key == "" {
            current := n.fallback;
          } else if Choice(d, n.choices, key) != "" {
            current, invalid := Choice(d, n.choices, key), 0;
          } else {
            invalid := invalid + 1;
            var retries := if n.maxRetries.Some? then n.maxRetries.value else 2.0;
            if invalid as real >= retries {
              current := if n.invalid != "" then n.invalid else n.fallback;
            }
          }
        case UnknownKind | InheritedKind =>
          result := UnknownType;
          StaysEnded(d, t, step + 1, limit);
          return;
        case _ =>
          input := input + 1;
          if key != "" && key[0] in AcceptedKeys(n) {
            current := n.next;
          } else if key == "" {
            current := n.fallback;
          }
      }
      step := step + 1;
    }
    if step < limit {
      StaysEnded(d, t, step + 1, limit);
    }
    result := if current == "" then MissingEnd else TooLong;
  }

  lemma {:induction false} StaysEnded(d: Doc, t: Trial, j: nat, k: nat)
    requires j <= k && After(d, t, j).Ended?
    ensures After(d, t, k) == After(d, t, j)
    decreases k
  {
    if j == k {
    } else {
      StaysEnded(d, t, j, k - 1);
    }
  }

  // ---------------------------------------------------------------- what a trial shows

  /** What the entries of a node hold under a key: the first own entry, else the text of something inherited. */
  ghost predicate Entry(d: Doc, choices: seq<(string, string)>, key: string, e: string) {
    if HasKey(choices, key)
    then exists i :: 0 <= i < |choices| && choices[i] == (key, e) && forall j :: 0 <= j < i ==> choices[j].0 != key
    else e == if key in d.inherited then d.inherited[key] else ""
  }

  lemma {:induction false} ChoiceIsTheEntry(d: Doc, choices: seq<(string, string)>, key: string)
    ensures Entry(d, choices, key, Choice(d, choices, key))
  {
    if choices == [] {
    } else if choices[0].0 == key {
      assert choices[0] == (key, choices[0].1);
    } else {
      var rest := choices[1..];
      ChoiceIsTheEntry(d, rest, key);
      assert forall i :: 0 < i < |choices| ==> rest[i - 1] == choices[i];
      if i :| 0 <= i < |rest| && rest[i] == (key, Choice(d, choices, key)) && forall j :: 0 <= j < i ==>
        rest[j].0 != key {
        assert choices[i + 1] == (key, Choice(d, choices, key));
        assert forall j :: 0 <= j < i + 1 ==> choices[j].0 != key;
      }
    }
  }

  /** The node with that name; a name that is only inherited leads to something without a type. */
  function Named(d: Doc, id: string): Node { if id in d.nodes then d.nodes[id] else BLANK }

  /** Menus and surveys take a key each time they are visited. */
  function KeysUsed(path: seq<Visit>, k: nat): nat
    requires k <= |path|
  {
    if k == 0 then 0 else KeysUsed(path, k - 1) + if path[k - 1].kind in {Menu, Csat, CollectInput} then 1 else 0
  }

  /** The key visit `k` finds, "" when they are used up. */
  function KeyAt(t: Trial, path: seq<Visit>, k: nat): string
    requires k < |path|
  {
    if KeysUsed(path, k) < |t.digits| then [t.digits[KeysUsed(path, k)]] else ""
  }

  /** How many keys that choose nothing menus have got before visit `k`, since one last did choose. */
  function WrongKeys(d: Doc, t: Trial, path: seq<Visit>, k: nat): nat
    requires k <= |path|
  {
    if k == 0 then 0
    else if !path[k - 1].kind.Menu? || KeyAt(t, path, k - 1) == "" then WrongKeys(d, t, path, k - 1)
    else if Choice(d, Named(d, path[k - 1].id).choices, KeyAt(t, path, k - 1)) != "" then 0
    else WrongKeys(d, t, path, k - 1) + 1
  }

  /** A survey goes on with a key it accepts, gives up without a key, and asks again after any other. */
  predicate Collects(n: Node, id: string, accepted: string, key: string, next: string) {
    if key == "" then next == n.fallback else if key[0] in accepted then next == n.next else next == id
  }

  /** A menu goes where the key chooses, gives up without a key, and asks again after a wrong one, until these are as
      many as the node allows, or 2. */
  predicate Chooses(d: Doc, n: Node, id: string, key: string, wrong: nat, next: string) {
    var target := Choice(d, n.choices, key);
    if key == "" then next == n.fallback
    else if target != "" then next == target
    else if (wrong + 1) as real < (if n.maxRetries.Some? then n.maxRetries.value else 2.0) then next == id
    else next == if n.invalid != "" then n.invalid else n.fallback
  }

  /** What the trial says of a business action. */
  function Answered(d: Doc, t: Trial, action: string): Option<string> {
    if action in t.outcomes then Some(t.outcomes[action])
    else if action in d.inherited then Some(d.inherited[action]) else None
  }

  /** Where visit `k` leads. */
  predicate LeadsTo(d: Doc, t: Trial, path: seq<Visit>, k: nat, next: string)
    requires k < |path|
  {
    var id := path[k].id;
    var n := Named(d, id);
    match n.kind
    case Play => next == n.next
    case TimeCondition => (t.open ==> next == n.open) && (!t.open ==> next == n.closed)
    case QueueCondition =>
      (!t.queueBusy ==> next == n.open) && (t.queueBusy ==> next == if n.busy != "" then n.busy else n.closed)
    case BusinessAction =>
      if Answered(d, t, n.action).None? then next == n.fallback
      else next == Choice(d, n.choices, Answered(d, t, n.action).value) && next != ""
    case Menu => Chooses(d, n, id, KeyAt(t, path, k), WrongKeys(d, t, path, k), next)
    case Csat => Collects(n, id, "12345", KeyAt(t, path, k), next)
    case CollectInput => Collects(n, id, n.acceptedDigits, KeyAt(t, path, k), next)
    case _ => false
  }

  predicate Arrives(d: Doc, t: Trial, path: seq<Visit>, id: string) {
    if path == [] then id == d.start else LeadsTo(d, t, path, |path| - 1, id)
  }

  /** The path begins at the start, every visit leads to the next, and each is listed with its type. */
  predicate Walked(d: Doc, t: Trial, path: seq<Visit>) {
    && (forall k :: 0 <= k < |path| ==>
          path[k].id != "" && path[k].id in Names(d) && path[k].kind == Named(d, path[k].id).kind)
    && (forall k :: 0 <= k < |path| ==>
          if k == 0 then path[k].id == d.start else LeadsTo(d, t, path, k - 1, path[k].id))
  }

  /** Why the path ends where it does. */
  ghost predicate EndsWith(d: Doc, t: Trial, limit: nat, path: seq<Visit>, result: Result) {
    match result
    case ToQueue(queue) => path != [] && LastNode(d, path).kind.RouteQueue? && queue == LastNode(d, path).queueId
    case HungUp => path != [] && LastNode(d, path).kind.Hangup?
    case ToVoicemail => path != [] && LastNode(d, path).kind.Voicemail?
    case UnknownType => path != [] && LastNode(d, path).kind in {UnknownKind, InheritedKind}
    case Undeclared =>
      && path != [] && LastNode(d, path).kind.BusinessAction? && Answered(d, t, LastNode(d, path).action).Some?
      && Choice(d, LastNode(d, path).choices, Answered(d, t, LastNode(d, path).action).value) == ""
    case MissingNode(id) => |path| < limit && id != "" && id !in Names(d) && Arrives(d, t, path, id)
    case MissingEnd => Arrives(d, t, path, "")
    case TooLong => |path| == limit && exists id :: id != "" && Arrives(d, t, path, id)
  }

  function LastNode(d: Doc, path: seq<Visit>): Node
    requires path != []
  {
    Named(d, path[|path| - 1].id)
  }

  lemma {:induction false} CountsStable(d: Doc, t: Trial, path: seq<Visit>, v: Visit, k: nat)
    requires k <= |path|
    ensures KeysUsed(path + [v], k) == KeysUsed(path, k) && WrongKeys(d, t, path + [v], k) == WrongKeys(d, t, path, k)
  {
    if k == 0 {
    } else {
      CountsStable(d, t, path, v, k - 1);
      assert (path + [v])[k - 1] == path[k - 1];
    }
  }

  lemma LeadsToStable(d: Doc, t: Trial, path: seq<Visit>, v: Visit, k: nat, next: string)
    requires k < |path|
    ensures LeadsTo(d, t, path + [v], k, next) <==> LeadsTo(d, t, path, k, next)
  {
    hide Chooses, Collects, Choice, Named, KeysUsed, WrongKeys;
    CountsStable(d, t, path, v, k);
    assert (path + [v])[k] == path[k];
  }

  lemma WalkedSnoc(d: Doc, t: Trial, path: seq<Visit>, v: Visit)
    requires Walked(d, t, path) && Arrives(d, t, path, v.id) && v.id != "" && v.id in Names(d)
    requires v.kind == Named(d, v.id).kind
    ensures Walked(d, t, path + [v])
  {
    hide LeadsTo, Named;
    forall k | 0 < k < |path + [v]|
      ensures LeadsTo(d, t, path + [v], k - 1, (path + [v])[k].id)
    {
      LeadsToStable(d, t, path, v, k - 1, (path + [v])[k].id);
    }
  }

  /** The loop's variables are those of the path so far. */
  predicate Counts(d: Doc, t: Trial, k: nat, s: Sim)
    requires s.Going?
  {
    |s.path| == k && s.input == KeysUsed(s.path, k) && s.invalid == WrongKeys(d, t, s.path, k)
  }

  ghost predicate Shown(d: Doc, t: Trial, k: nat, s: Sim) {
    && Walked(d, t, s.path) && |s.path| <= k
    && (if s.Ended? then EndsWith(d, t, k, s.path, s.result) && !s.result.TooLong?
        else Counts(d, t, k, s) && Arrives(d, t, s.path, s.current))
  }

  lemma NodeIsNamed(d: Doc, id: string)
    requires Get(d, id).Some?
    ensures Get(d, id).value == Named(d, id) && id in Names(d)
  {
  }

  lemma PassCounts(d: Doc, t: Trial, k: nat, s: Sim)
    requires s.Going? && Counts(d, t, k, s) && AtNode(d, t, s, Named(d, s.current)).Going?
    ensures Counts(d, t, k + 1, AtNode(d, t, s, Named(d, s.current)))
  {
    hide Choice, Named, Outcome, BusyTarget;
    var v := Visit(s.current, Named(d, s.current).kind);
    CountsStable(d, t, s.path, v, k);
    assert (s.path + [v])[k] == v;
  }

  lemma PassLeads(d: Doc, t: Trial, k: nat, s: Sim)
    requires s.Going? && Counts(d, t, k, s) && AtNode(d, t, s, Named(d, s.current)).Going?
    ensures var s' := AtNode(d, t, s, Named(d, s.current)); LeadsTo(d, t, s'.path, k, s'.current)
  {
    hide Choice, Named, KeysUsed, WrongKeys;
    var v := Visit(s.current, Named(d, s.current).kind);
    CountsStable(d, t, s.path, v, k);
    assert (s.path + [v])[k] == v;
  }

  lemma PassEnds(d: Doc, t: Trial, k: nat, s: Sim)
    requires s.Going? && AtNode(d, t, s, Named(d, s.current)).Ended?
    ensures var s' := AtNode(d, t, s, Named(d, s.current));
      EndsWith(d, t, k, s'.path, s'.result) && !s'.result.TooLong? && !s'.result.MissingNode?
  {
    hide Choice, Named, KeysUsed, WrongKeys;
  }

  lemma PassShows(d: Doc, t: Trial, k: nat, s: Sim)
    requires s.Going? && Shown(d, t, k, s) && s.current != "" && Get(d, s.current).Some?
    ensures Shown(d, t, k + 1, AtNode(d, t, s, Get(d, s.current).value))
  {
    NodeIsNamed(d, s.current);
    var n := Named(d, s.current);
    AtNodeRecords(d, t, s, n);
    WalkedSnoc(d, t, s.path, Visit(s.current, n.kind));
    hide Walked, AtNode, Named, Counts, LeadsTo, EndsWith;
    if AtNode(d, t, s, n).Going? {
      PassCounts(d, t, k, s);
      PassLeads(d, t, k, s);
    } else {
      PassEnds(d, t, k + 1, s);
    }
  }

  lemma AdvanceShows(d: Doc, t: Trial, k: nat, s: Sim)
    requires Shown(d, t, k, s)
    ensures Shown(d, t, k + 1, Advance(d, t, s))
  {
    if s.Going? && s.current != "" && Get(d, s.current).Some? {
      PassShows(d, t, k, s);
    }
    hide AtNode, Walked, Arrives, Counts;
  }

  lemma NothingShown(d: Doc, t: Trial)
    ensures Shown(d, t, 0, After(d, t, 0))
  {
  }

  lemma {:induction false} TrialIsShown(d: Doc, t: Trial, k: nat)
    ensures Shown(d, t, k, After(d, t, k))
  {
    if k == 0 {
      NothingShown(d, t);
      hide Shown;
    } else {
      hide Shown, Advance;
      TrialIsShown(d, t, k - 1);
      AdvanceShows(d, t, k - 1, After(d, t, k - 1));
    }
  }

  /** What the simulation shows is the path through the flow that the trial's opening hours, queue, outcomes and keys
      choose, up to the node where it ends, and why it ends there. */
  lemma SimulationFollowsTheTrial(d: Doc, t: Trial, limit: nat)
    ensures var (path, result) := Simulated(d, t, limit);
      Walked(d, t, path) && |path| <= limit && EndsWith(d, t, limit, path, result)
  {
    TrialIsShown(d, t, limit);
    hide Walked, Arrives, After;
  }

  lemma {:induction false} CountsPrefix(d: Doc, t: Trial, path: seq<Visit>, n: nat, k: nat)
    requires k <= n <= |path|
    ensures KeysUsed(path[..n], k) == KeysUsed(path, k) && WrongKeys(d, t, path[..n], k) == WrongKeys(d, t, path, k)
  {
    if k == 0 {
    } else {
      CountsPrefix(d, t, path, n, k - 1);
    }
  }

  lemma LeadsToAtMostOne(d: Doc, t: Trial, path: seq<Visit>, k: nat, x: string, y: string)
    requires k < |path| && LeadsTo(d, t, path, k, x) && LeadsTo(d, t, path, k, y)
    ensures x == y
  {
    hide Choice, Named, KeysUsed, WrongKeys, KeyAt, Answered;
  }

  /** A visit leads to one place, whatever comes after it. */
  lemma LeadsToOne(d: Doc, t: Trial, a: seq<Visit>, b: seq<Visit>, k: nat, x: string, y: string)
    requires k < |a| && k < |b| && a[..k + 1] == b[..k + 1] && LeadsTo(d, t, a, k, x) && LeadsTo(d, t, b, k, y)
    ensures x == y
  {
    hide LeadsTo;
    LeadsToSame(d, t, a, b, k, y);
    LeadsToAtMostOne(d, t, a, k, x, y);
  }

  lemma VisitOf(d: Doc, t: Trial, path: seq<Visit>, k: nat)
    requires Walked(d, t, path) && k < |path|
    ensures path[k].id != "" && path[k].id in Names(d) && path[k] == Visit(path[k].id, Named(d, path[k].id).kind)
    ensures if k == 0 then path[k].id == d.start else LeadsTo(d, t, path, k - 1, path[k].id)
  {
    hide LeadsTo, Named;
  }

  lemma {:induction false} WalksAgree(d: Doc, t: Trial, a: seq<Visit>, b: seq<Visit>, n: nat)
    requires Walked(d, t, a) && Walked(d, t, b) && n <= |a| && n <= |b|
    ensures a[..n] == b[..n]
  {
    hide Walked, LeadsTo, Named;
    if n == 0 {
    } else {
      WalksAgree(d, t, a, b, n - 1);
      VisitOf(d, t, a, n - 1);
      VisitOf(d, t, b, n - 1);
      if n > 1 {
        LeadsToOne(d, t, a, b, n - 2, a[n - 1].id, b[n - 1].id);
      }
      assert a[n - 1] == b[n - 1];
      assert a[..n] == a[..n - 1] + [a[n - 1]] && b[..n] == b[..n - 1] + [b[n - 1]];
    }
  }

  predicate AtANode(r: Result) { !r.MissingNode? && !r.MissingEnd? && !r.TooLong? }

  /** A visit that ends a trial leads nowhere. */
  lemma EndingVisitLeadsNowhere(d: Doc, t: Trial, limit: nat, a: seq<Visit>, r: Result, next: string)
    requires EndsWith(d, t, limit, a, r) && AtANode(r)
    ensures !Arrives(d, t, a, next)
  {
    hide Choice, Named, KeysUsed, WrongKeys, KeyAt, Chooses, Collects;
  }

  lemma ArrivesOnce(d: Doc, t: Trial, a: seq<Visit>, x: string, y: string)
    requires Arrives(d, t, a, x) && Arrives(d, t, a, y)
    ensures x == y
  {
    hide LeadsTo;
    if a != [] {
      LeadsToAtMostOne(d, t, a, |a| - 1, x, y);
    }
  }

  /** Where a trial ends it does not go on. */
  lemma EndsThere(d: Doc, t: Trial, limit: nat, a: seq<Visit>, r: Result, next: string)
    requires EndsWith(d, t, limit, a, r) && Arrives(d, t, a, next) && next != "" && next in Names(d)
    ensures |a| == limit
  {
    if AtANode(r) {
      EndingVisitLeadsNowhere(d, t, limit, a, r, next);
    } else if r.MissingNode? {
      ArrivesOnce(d, t, a, r.id, next);
    } else if r.MissingEnd? {
      ArrivesOnce(d, t, a, "", next);
    }
    hide Arrives, Named, Answered, Choice;
  }

  lemma {:induction false} EndedWalk(d: Doc, t: Trial, limit: nat, a: seq<Visit>, result: Result, b: seq<Visit>)
    requires Walked(d, t, a) && EndsWith(d, t, limit, a, result) && Walked(d, t, b) && |a| < |b|
    ensures |a| == limit
  {
    hide Walked, LeadsTo, Named, EndsWith;
    WalksAgree(d, t, a, b, |a|);
    VisitOf(d, t, b, |a|);
    assert a[..|a|] == a;
    if a != [] {
      LeadsToSame(d, t, a, b, |a| - 1, b[|a|].id);
    }
    EndsThere(d, t, limit, a, result, b[|a|].id);
  }

  lemma LeadsToSame(d: Doc, t: Trial, a: seq<Visit>, b: seq<Visit>, k: nat, x: string)
    requires k < |a| && k < |b| && a[..k + 1] == b[..k + 1] && LeadsTo(d, t, b, k, x)
    ensures LeadsTo(d, t, a, k, x)
  {
    CountsPrefix(d, t, a, k + 1, k);
    CountsPrefix(d, t, b, k + 1, k);
    assert a[k] == a[..k + 1][k] && b[k] == b[..k + 1][k];
    hide Chooses, Collects, Choice, Named, KeysUsed, WrongKeys;
    assert KeyAt(t, a, k) == KeyAt(t, b, k);
  }

  lemma EndsOneWay(d: Doc, t: Trial, limit: nat, a: seq<Visit>, r: Result, s: Result)
    requires EndsWith(d, t, limit, a, r) && EndsWith(d, t, limit, a, s)
    ensures r == s
  {
    forall x
      ensures (AtANode(r) || AtANode(s)) ==> !Arrives(d, t, a, x)
    {
      if AtANode(r) {
        EndingVisitLeadsNowhere(d, t, limit, a, r, x);
      } else if AtANode(s) {
        EndingVisitLeadsNowhere(d, t, limit, a, s, x);
      }
    }
    forall x, y | Arrives(d, t, a, x) && Arrives(d, t, a, y)
      ensures x == y
    {
      ArrivesOnce(d, t, a, x, y);
    }
    hide Arrives, Named, Answered, Choice;
  }

  /** There is only one path and one result that a trial can show. */
  lemma TrialShowsOneThing(d: Doc, t: Trial, limit: nat, a: seq<Visit>, r: Result, b: seq<Visit>, s: Result)
    requires Walked(d, t, a) && |a| <= limit && EndsWith(d, t, limit, a, r)
    requires Walked(d, t, b) && |b| <= limit && EndsWith(d, t, limit, b, s)
    ensures a == b && r == s
  {
    hide Walked, EndsWith;
    if |a| < |b| {
      EndedWalk(d, t, limit, a, r, b);
    } else if |b| < |a| {
      EndedWalk(d, t, limit, b, s, a);
    } else {
      WalksAgree(d, t, a, b, |a|);
      assert a[..|a|] == a && b[..|b|] == b;
      EndsOneWay(d, t, limit, a, r, s);
    }
  }

  // ---------------------------------------------------------------- every step stays or follows a branch

  /** No branch of the flow, and no outcome of the trial, names something inherited instead of something the
      flow declares. */
  ghost predicate Plain(d: Doc, t: Trial) {
    forall id :: id in d.nodes ==> PlainNode(d, t, d.nodes[id])
  }

  predicate PlainNode(d: Doc, t: Trial, n: Node) { OwnTargetsAt(d, n) && OwnChoicesAt(d, t, n) }

  predicate OwnTargetsAt(d: Doc, n: Node) {
    forall b :: b in Outgoing(n) && b != "" ==> b in d.nodes || b !in d.inherited
  }

  predicate OwnChoicesAt(d: Doc, t: Trial, n: Node) {
    && (n.kind.BusinessAction? && Outcome(d, t, n.action).Some? ==>
          Outcome(d, t, n.action).value !in d.inherited || HasKey(n.choices, Outcome(d, t, n.action).value))
    && (n.kind.Menu? ==> forall k :: 0 <= k < |t.digits| ==> [t.digits[k]] !in d.inherited)
  }

  lemma {:induction false} ChoiceIsABranch(d: Doc, choices: seq<(string, string)>, key: string)
    requires key !in d.inherited || HasKey(choices, key)
    ensures Choice(d, choices, key) == "" || Choice(d, choices, key) in ChoiceTargets(choices)
  {
    if choices == [] {
    } else {
      assert ChoiceTargets(choices) == [choices[0].1] + ChoiceTargets(choices[1..]);
      if choices[0].0 != key {
        assert HasKey(choices, key) ==> HasKey(choices[1..], key) by {
          assert forall i :: 0 < i < |choices| ==> choices[1..][i - 1] == choices[i];
        }
        ChoiceIsABranch(d, choices[1..], key);
      }
    }
  }

  /** Where one pass may leave the simulation: the same node, with one more key used up, or along a branch. */
  ghost predicate Onward(d: Doc, t: Trial, s: Sim, n: Node, s': Sim)
    requires s.Going? && s'.Going?
  {
    || (s'.current == s.current && s.input < |t.digits| && s'.input == s.input + 1)
    || ((s'.current == "" || s'.current in Outgoing(n)) && s.input <= s'.input)
  }

  lemma StepsOnward(d: Doc, t: Trial, s: Sim, n: Node)
    requires s.Going? && PlainNode(d, t, n) && AtNode(d, t, s, n).Going?
    ensures Onward(d, t, s, n, AtNode(d, t, s, n))
  {
    var s' := AtNode(d, t, s, n);
    if n.kind.Menu? && s.input < |t.digits| {
      ChoiceIsABranch(d, n.choices, Digit(t, s.input));
    } else if n.kind.BusinessAction? && Outcome(d, t, n.action).Some? {
      ChoiceIsABranch(d, n.choices, Outcome(d, t, n.action).value);
    }
  }

  predicate Steps(d: Doc, a: string, b: string) { b == a || b in Targets(d, a) }

  /** Each place on the path is the one before or the end of one of its branches, and so is the next place. */
  ghost predicate Branching(d: Doc, s: Sim) {
    && (forall i, j :: 0 <= i < j < |s.path| && j == i + 1 ==> Steps(d, s.path[i].id, s.path[j].id))
    && (s.Going? && s.path != [] && s.current != "" ==> Steps(d, s.path[|s.path| - 1].id, s.current))
  }

  lemma AtNodeRecords(d: Doc, t: Trial, s: Sim, n: Node)
    requires s.Going?
    ensures AtNode(d, t, s, n).path == s.path + [Visit(s.current, n.kind)]
  {
  }

  lemma AtNodeBranches(d: Doc, t: Trial, s: Sim, n: Node)
    requires s.Going? && s.current != "" && Get(d, s.current) == Some(n) && PlainNode(d, t, n) && Branching(d, s)
    ensures Branching(d, AtNode(d, t, s, n))
  {
    hide AtNode, PlainNode, Outgoing;
    var s' := AtNode(d, t, s, n);
    AtNodeRecords(d, t, s, n);
    if s'.Going? {
      StepsOnward(d, t, s, n);
      assert s'.current == "" || Steps(d, s.current, s'.current);
    }
  }

  lemma AdvanceBranches(d: Doc, t: Trial, s: Sim)
    requires Plain(d, t) && Branching(d, s)
    ensures Branching(d, Advance(d, t, s))
  {
    hide AtNode, PlainNode, Outgoing;
    if s.Going? && s.current != "" && Get(d, s.current).Some? {
      PlainAnywhere(d, t, s.current);
      AtNodeBranches(d, t, s, Get(d, s.current).value);
    }
  }

  lemma PlainAnywhere(d: Doc, t: Trial, id: string)
    requires Plain(d, t) && Get(d, id).Some?
    ensures PlainNode(d, t, Get(d, id).value)
  {
  }

  lemma {:induction false} PathFollowsBranches(d: Doc, t: Trial, k: nat)
    requires Plain(d, t)
    ensures Branching(d, After(d, t, k))
  {
    if k == 0 {
    } else {
      hide Advance, Branching, Plain;
      PathFollowsBranches(d, t, k - 1);
      AdvanceBranches(d, t, After(d, t, k - 1));
    }
  }

  // ---------------------------------------------------------------- a publishable flow always ends properly

  predicate Proper(r: Result) { r.ToQueue? || r.HungUp? || r.ToVoicemail? || r.Undeclared? }

  lemma CompleteNodesLeadOn(d: Doc, t: Trial, s: Sim, n: Node)
    requires s.Going? && s.current != "" && Complete(d, n) && PlainNode(d, t, n) && !n.kind.InheritedKind?
    ensures var s' := AtNode(d, t, s, n);
            if s'.Ended? then Proper(s'.result)
            else s'.current == s.current || (s'.current in d.nodes && s'.current != "")
  {
    var s' := AtNode(d, t, s, n);
    if s'.Going? {
      StepsOnward(d, t, s, n);
      assert s'.current != "";
      if s'.current in Outgoing(n) {
        assert Get(d, s'.current).Some?;
      }
    }
  }

  /** The passes so far are a path through the graph, plus the passes that stayed because of an invalid key. */
  ghost predicate Tracked(g: Graph<string>, d: Doc, t: Trial, s: Sim, trail: seq<string>, stays: nat) {
    && Path(g, trail) && trail[0] == d.start && stays <= |t.digits|
    && (forall i :: 0 <= i < |trail| ==> trail[i] in d.nodes)
    && (if s.Ended? then Proper(s.result) && |s.path| == |trail| + stays
        else trail[|trail| - 1] == s.current && s.current != "" && |s.path| == |trail| - 1 + stays && stays <= s.input)
  }

  /** Every branch to a named node is an edge of `g`. */
  ghost predicate HasBranches(g: Graph<string>, d: Doc) {
    forall a, b {:trigger Edge(g, a, b)} :: a in d.nodes && b in d.nodes && b in Outgoing(d.nodes[a]) && b != "" ==>
      Edge(g, a, b)
  }

  lemma TrackPass(g: Graph<string>, d: Doc, t: Trial, s: Sim, trail: seq<string>, stays: nat)
    returns (trail': seq<string>, stays': nat)
    requires HasBranches(g, d) && s.Going? && Tracked(g, d, t, s, trail, stays)
    requires Complete(d, d.nodes[s.current]) && PlainNode(d, t, d.nodes[s.current])
      && !d.nodes[s.current].kind.InheritedKind?
    ensures Tracked(g, d, t, Advance(d, t, s), trail', stays') && |Advance(d, t, s).path| == |s.path| + 1
  {
    var n := d.nodes[s.current];
    CompleteNodesLeadOn(d, t, s, n);
    var s' := AtNode(d, t, s, n);
    assert |s'.path| == |s.path| + 1;
    trail', stays' := trail, stays;
    if s'.Going? {
      StepsOnward(d, t, s, n);
      if s'.current == s.current && s.input < |t.digits| && s'.input == s.input + 1 {
        stays' := stays + 1;
      } else {
        assert Edge(g, s.current, s'.current);
        LinkedSnoc(g, trail, s'.current);
        trail' := trail + [s'.current];
      }
    }
  }

  /** No node's type is an inherited name. */
  predicate Typed(d: Doc) { forall id :: id in d.nodes ==> !d.nodes[id].kind.InheritedKind? }

  lemma {:induction false} Trail(g: Graph<string>, d: Doc, t: Trial, k: nat) returns (trail: seq<string>, stays: nat)
    requires HasBranches(g, d) && d.start in d.nodes && d.start != "" && Plain(d, t) && Typed(d)
    requires forall id :: id in d.nodes ==> Complete(d, d.nodes[id])
    ensures Tracked(g, d, t, After(d, t, k), trail, stays) && (After(d, t, k).Going? ==> |After(d, t, k).path| == k)
  {
    if k == 0 {
      trail, stays := [d.start], 0;
    } else {
      trail, stays := Trail(g, d, t, k - 1);
      var s := After(d, t, k - 1);
      if s.Going? {
        hide AtNode, Advance, Complete, PlainNode, HasBranches;
        assert s.current in d.nodes by {
          assert trail[|trail| - 1] in d.nodes;
        }
        trail, stays := TrackPass(g, d, t, s, trail, stays);
      }
    }
  }

  /** A flow the validation passes, tried with keys that leave room under the limit: the simulation ends in a
      queue, a hang-up, voicemail or an undeclared business outcome, on a path no longer than nodes plus keys. */
  lemma PublishableFlowsEnd(d: Doc, t: Trial, limit: nat, queues: set<string>, assets: set<string>)
    requires Publishable(d, queues, assets) && Plain(d, t) && Typed(d) && |d.nodes| + |t.digits| <= limit
    ensures var (path, result) := Simulated(d, t, limit); Proper(result) && |path| <= |d.nodes| + |t.digits|
  {
    PublishableMeans(d, queues, assets);
    var g := FlowGraph(d);
    forall a, b | a in d.nodes && b in d.nodes && b in Outgoing(d.nodes[a]) && b != ""
      ensures Edge(g, a, b)
    {
      FlowEdge(d, a, b);
    }
    var trail, stays := Trail(g, d, t, limit);
    AcyclicPathsDoNotRepeat(g, trail);
    Pigeonhole(trail, d.nodes.Keys);
  }

  /** The same for the limit the program uses. */
  lemma ShortPublishableFlowsEnd(d: Doc, t: Trial, queues: set<string>, assets: set<string>)
    requires Publishable(d, queues, assets) && Plain(d, t) && Typed(d) && |d.nodes| + |t.digits| <= LIMIT
    ensures var (path, result) := Simulated(d, t, LIMIT); Proper(result) && |path| <= |d.nodes| + |t.digits|
  {
    hide Simulated, Publishable, Plain, Typed;
    PublishableFlowsEnd(d, t, LIMIT, queues, assets);
  }

  // ---------------------------------------------------------------- why flows must be plain

  lemma FirstTwoPasses(d: Doc, t: Trial, n: Node)
    requires d.start != "" && Get(d, d.start) == Some(n)
    ensures After(d, t, 1) == AtNode(d, t, Going(d.start, 0, 0, []), n)
    ensures After(d, t, 2) == Advance(d, t, AtNode(d, t, Going(d.start, 0, 0, []), n))
  {
    assert After(d, t, 0) == Going(d.start, 0, 0, []);
    assert After(d, t, 1) == Advance(d, t, After(d, t, 0));
    assert After(d, t, 2) == Advance(d, t, After(d, t, 1));
  }

  /** A single prompt, named `a`, that leads to `target`. */
  function PromptTo(a: string, target: string, asset: string, inherited: map<string, string>): Doc
    requires "" !in inherited
  {
    RawDoc(a, [a], map[a := BLANK.(kind := Play, next := target, file := asset + ".wav", timeoutSec := Some(5.0))],
      inherited)
  }

  lemma PromptIsAcyclic(d: Doc, a: string, target: string)
    requires a != target && d.start == a && d.nodes.Keys == {a} && Targets(d, a) == [target]
    ensures !Cyclic(FlowGraph(d), a)
  {
    var height: map<string, nat> := map[a := 1, target := 0];
    forall v, w | v in height && Edge(FlowGraph(d), v, w)
      ensures w in height && height[w] < height[v]
    {
      FlowEdge(d, v, w);
      if v != a {
        OnlyNodesBranch(d, v);
      }
    }
    HeightsRuleOutCycles(FlowGraph(d), a, height);
  }

  lemma PromptIsWellFormed(d: Doc, n: Node, target: string, asset: string)
    requires n.kind.Play? && n.next == target != "" && n.file == asset + ".wav" && n.timeoutSec == Some(5.0)
      && Get(d, target).Some?
    ensures WellFormed(d, n, {}, {asset})
  {
    assert |n.file| == |asset| + 4;
    assert asset in {asset};
  }

  lemma OneNodeReaches(d: Doc, a: string)
    ensures Reachable(FlowGraph(d), a, a)
  {
  }

  lemma PromptIsPublishable(a: string, target: string, asset: string, inherited: map<string, string>)
    requires "" !in inherited && target in inherited && target != a && a != ""
    ensures Publishable(PromptTo(a, target, asset, inherited), {}, {asset})
  {
    var d := PromptTo(a, target, asset, inherited);
    assert Targets(d, a) == [target];
    PromptIsAcyclic(d, a, target);
    PromptIsWellFormed(d, d.nodes[a], target, asset);
    OneNodeReaches(d, a);
    hide WellFormed, FlowGraph, Cyclic;
    PublishableIffSound(d, {}, {asset});
  }

  /** Whatever inherited name a branch leads to: the flow may be published, and every simulation of at least
      two steps ends in an unknown type. */
  lemma InheritedTargetEndsUnknown(a: string, target: string, asset: string, inherited: map<string, string>, t: Trial,
      limit: nat)
    requires "" !in inherited && target in inherited && target != a && a != "" && limit >= 2
    ensures var d := PromptTo(a, target, asset, inherited);
            Publishable(d, {}, {asset}) && Simulated(d, t, limit).1 == UnknownType
  {
    var d := PromptTo(a, target, asset, inherited);
    PromptIsPublishable(a, target, asset, inherited);
    FirstTwoPasses(d, t, d.nodes[a]);
    StaysEnded(d, t, 2, limit);
  }

  /** A single node, named `a`, whose type is an inherited name. */
  function OddNode(a: string, inherited: map<string, string>): Doc
    requires "" !in inherited
  {
    RawDoc(a, [a], map[a := BLANK.(kind := InheritedKind)], inherited)
  }

  lemma OddNodePasses(a: string, inherited: map<string, string>)
    requires "" !in inherited && a != ""
    ensures Publishable(OddNode(a, inherited), {}, {})
  {
    var d := OddNode(a, inherited);
    assert Targets(d, a) == [] && WellFormed(d, d.nodes[a], {}, {});
    LeafIsAcyclic(d, a);
    OneNodeReaches(d, a);
    hide Targets, WellFormed, FlowGraph, Cyclic, Publishable;
    PublishableIffSound(d, {}, {});
  }

  /** It passes the validation, and every simulation of at least one step ends in an unknown type. */
  lemma InheritedTypeEndsUnknown(a: string, inherited: map<string, string>, t: Trial, limit: nat)
    requires "" !in inherited && a != "" && limit >= 1
    ensures var d := OddNode(a, inherited);
            Publishable(d, {}, {}) && Simulated(d, t, limit).1 == UnknownType
  {
    hide Publishable;
    var d := OddNode(a, inherited);
    OddNodePasses(a, inherited);
    FirstTwoPasses(d, t, d.nodes[a]);
    hide After;
    StaysEnded(d, t, 1, limit);
  }

  lemma LeafIsAcyclic(d: Doc, a: string)
    requires Targets(d, a) == []
    ensures !Cyclic(FlowGraph(d), a)
  {
    var height: map<string, nat> := map[a := 0];
    forall w
      ensures !Edge(FlowGraph(d), a, w)
    {
      FlowEdge(d, a, w);
    }
    HeightsRuleOutCycles(FlowGraph(d), a, height);
  }

  lemma {:induction false} UndeclaredIsInherited(d: Doc, choices: seq<(string, string)>, key: string)
    requires key in d.inherited && !HasKey(choices, key)
    ensures Choice(d, choices, key) == d.inherited[key]
  {
    if choices == [] {
    } else {
      assert forall i :: 0 < i < |choices| ==> choices[1..][i - 1] == choices[i];
      UndeclaredIsInherited(d, choices[1..], key);
    }
  }

  /** A business action, named `a`, that declares one outcome and then hangs up at `h`. */
  function ActionThenHangup(a: string, h: string, action: string, declared: string, inherited: map<string, string>): Doc
    requires "" !in inherited && a != h
  {
    RawDoc(a, [a, h],
           map[a := BLANK.(kind := BusinessAction, action := action, timeoutSec := Some(5.0),
             choices := [(declared, h)], fallback := h),
               h := BLANK.(kind := Hangup)],
           inherited)
  }

  lemma ActionIsWellFormed(d: Doc, n: Node, h: string)
    requires n.kind.BusinessAction? && !Blank(n.action) && n.timeoutSec == Some(5.0) && n.fallback == h != ""
      && Get(d, h).Some?
    requires |n.choices| == 1 && !Blank(n.choices[0].0) && n.choices[0].1 == h
    ensures WellFormed(d, n, {}, {})
  {
  }

  lemma HangupIsWellFormed(d: Doc)
    ensures WellFormed(d, BLANK.(kind := Hangup), {}, {})
  {
  }

  lemma ActionTargets(d: Doc, a: string, declared: string, h: string)
    requires a in d.nodes && d.nodes[a].kind.BusinessAction? && d.nodes[a].choices == [(declared, h)]
      && d.nodes[a].fallback == h != ""
    ensures Targets(d, a) == [h, h]
  {
    assert ChoiceTargets([(declared, h)]) == [h];
  }

  lemma HangupTargets(d: Doc, h: string)
    requires h in d.nodes && d.nodes[h].kind.Hangup?
    ensures Targets(d, h) == []
  {
  }

  lemma ActionReaches(d: Doc, a: string, h: string)
    requires a in d.nodes && h in d.nodes && h != "" && Targets(d, a) == [h, h]
    ensures Reachable(FlowGraph(d), a, h)
  {
    FlowEdge(d, a, h);
    hide FlowGraph, Edge;
    EdgeIsBeyond(FlowGraph(d), a, h);
  }

  lemma ActionFlowPasses(d: Doc, a: string, h: string)
    requires d.start == a != "" && |d.ids| == 2 && d.nodes.Keys == {a, h} && a != h && h != ""
    requires Targets(d, a) == [h, h] && Targets(d, h) == []
    requires WellFormed(d, d.nodes[a], {}, {}) && WellFormed(d, d.nodes[h], {}, {})
    ensures Publishable(d, {}, {})
  {
    hide WellFormed, FlowGraph, Targets, Publishable, Cyclic, Reachable;
    TwoNodesAreAcyclic(d, a, h);
    ActionReaches(d, a, h);
    OneNodeReaches(d, a);
    PublishableIffSound(d, {}, {});
  }

  lemma ActionIsPublishable(a: string, h: string, action: string, declared: string, inherited: map<string, string>)
    requires "" !in inherited && a != h && a != "" && h != "" && !Blank(action) && !Blank(declared)
    ensures Publishable(ActionThenHangup(a, h, action, declared, inherited), {}, {})
  {
    hide Blank, WellFormed, FlowGraph, Targets, Publishable, Cyclic;
    var d := ActionThenHangup(a, h, action, declared, inherited);
    ActionTargets(d, a, declared, h);
    HangupTargets(d, h);
    ActionIsWellFormed(d, d.nodes[a], h);
    HangupIsWellFormed(d);
    ActionFlowPasses(d, a, h);
  }

  lemma TwoNodesAreAcyclic(d: Doc, a: string, h: string)
    requires a != h && Targets(d, a) == [h, h] && Targets(d, h) == []
    ensures !Cyclic(FlowGraph(d), a)
  {
    var height: map<string, nat> := map[a := 1, h := 0];
    forall v, w | v in height && Edge(FlowGraph(d), v, w)
      ensures w in height && height[w] < height[v]
    {
      FlowEdge(d, v, w);
    }
    HeightsRuleOutCycles(FlowGraph(d), a, height);
  }

  /** The same for outcomes: the flow passes the validation, and when the action's outcome is an inherited name it does
      not declare, the simulation goes to a node named like the text of that name. */
  lemma InheritedOutcomeIsFollowed(a: string, h: string, action: string, declared: string, outcome: string,
      inherited: map<string, string>, t: Trial, limit: nat)
    requires "" !in inherited && a != h && a != "" && h != "" && !Blank(action) && !Blank(declared) && limit >= 2
    requires action in t.outcomes && t.outcomes[action] == outcome && outcome in inherited && outcome != declared
    requires inherited[outcome] !in {"", a, h} && inherited[outcome] !in inherited
    ensures var d := ActionThenHangup(a, h, action, declared, inherited);
            Publishable(d, {}, {}) && Simulated(d, t, limit).1 == MissingNode(inherited[outcome])
  {
    var d := ActionThenHangup(a, h, action, declared, inherited);
    ActionIsPublishable(a, h, action, declared, inherited);
    UndeclaredIsInherited(d, d.nodes[a].choices, outcome);
    FirstTwoPasses(d, t, d.nodes[a]);
    StaysEnded(d, t, 2, limit);
  }

  // ---------------------------------------------------------------- each condition is needed

  /** No branch leads to an inherited name. */
  predicate OwnTargets(d: Doc) {
    forall id :: id in d.nodes ==> OwnTargetsAt(d, d.nodes[id])
  }

  /** No outcome and no key of the trial is an inherited name that the node does not declare. */
  predicate OwnChoices(d: Doc, t: Trial) {
    forall id :: id in d.nodes ==> OwnChoicesAt(d, t, d.nodes[id])
  }

  /** Every flow that may be published, tried with few enough keys, ends properly. Each flag waives a condition. */
  ghost predicate AllEnd(anyTarget: bool, anyChoice: bool, anyType: bool) {
    forall d: Doc, t: Trial, limit: nat, queues: set<string>, assets: set<string> ::
      Publishable(d, queues, assets) && |d.nodes| + |t.digits| <= limit
      && (anyTarget || OwnTargets(d)) && (anyChoice || OwnChoices(d, t)) && (anyType || Typed(d))
      ==> Proper(Simulated(d, t, limit).1)
  }

  const QUIET := Trial("", true, false, map[])

  lemma TargetsMatter(inherited: map<string, string>)
    requires inherited == map["toString" := "text"]
    ensures !AllEnd(true, false, false)
  {
    var d := PromptTo("a", "toString", "x", inherited);
    InheritedTargetEndsUnknown("a", "toString", "x", inherited, QUIET, 2);
    assert |d.nodes| == 1 && OwnChoices(d, QUIET) && Typed(d);
    hide Publishable, Simulated;
    assert !Proper(Simulated(d, QUIET, 2).1);
  }

  lemma ChoicesMatter(a: string, h: string, action: string, declared: string, outcome: string,
      inherited: map<string, string>)
    requires "" !in inherited && a != h && a != "" && h != "" && !Blank(action) && !Blank(declared)
    requires outcome in inherited && outcome != declared && inherited[outcome] !in {"", a, h}
      && inherited[outcome] !in inherited
    ensures !AllEnd(false, true, false)
  {
    var t := QUIET.(outcomes := map[action := outcome]);
    var d := ActionThenHangup(a, h, action, declared, inherited);
    hide Blank, Simulated, Publishable, OwnTargets, OwnChoices, Typed;
    InheritedOutcomeIsFollowed(a, h, action, declared, outcome, inherited, t, 2);
    assert OwnTargets(d) && Typed(d) by {
      ActionTargets(d, a, declared, h);
      ActionIsOwn(d, h);
    }
    assert |d.nodes| == 2 && |t.digits| == 0;
    assert !Proper(Simulated(d, t, 2).1);
  }

  lemma ActionIsOwn(d: Doc, h: string)
    requires h in d.nodes && |d.nodes| == 2 && d.nodes[h].kind.Hangup?
    requires forall id :: id in d.nodes && id != h ==>
      d.nodes[id].kind.BusinessAction? && Outgoing(d.nodes[id]) == [h, h]
    ensures OwnTargets(d) && Typed(d)
  {
  }

  lemma TypesMatter(inherited: map<string, string>)
    requires inherited == map["toString" := "text"]
    ensures !AllEnd(false, false, true)
  {
    var d := OddNode("a", inherited);
    InheritedTypeEndsUnknown("a", inherited, QUIET, 1);
    assert |d.nodes| == 1 && OwnTargets(d) && OwnChoices(d, QUIET);
    hide Publishable, Simulated;
    assert !Proper(Simulated(d, QUIET, 1).1);
  }

  lemma LettersAreNotBlank()
    ensures !Blank("x") && !Blank("y")
  {
    assert "x"[0] !in SPACES && "y"[0] !in SPACES;
  }

  lemma WaivingMoreIsNoEasier(a: bool, b: bool, c: bool, x: bool, y: bool, z: bool)
    requires AllEnd(a, b, c) && (x ==> a) && (y ==> b) && (z ==> c)
    ensures AllEnd(x, y, z)
  {
    hide Publishable, Simulated, OwnTargets, OwnChoices, Typed;
  }

  lemma PlainFlowsEnd()
    ensures AllEnd(false, false, false)
  {
    forall d: Doc, t: Trial, limit: nat, queues: set<string>, assets: set<string> |
      Publishable(d, queues, assets) && |d.nodes| + |t.digits| <= limit && OwnTargets(d) && OwnChoices(d, t) && Typed(d)
      ensures Proper(Simulated(d, t, limit).1)
    {
      assert Plain(d, t);
      hide Publishable, Simulated, Plain, OwnTargets, OwnChoices;
      PublishableFlowsEnd(d, t, limit, queues, assets);
    }
  }

  /** Own targets, own choices and own types are enough, and none of the three can be dropped. */
  lemma FlowsEndIffNothingIsWaived(anyTarget: bool, anyChoice: bool, anyType: bool)
    ensures AllEnd(anyTarget, anyChoice, anyType) <==> !anyTarget && !anyChoice && !anyType
  {
    hide AllEnd;
    PlainFlowsEnd();
    TargetsMatter(map["toString" := "text"]);
    LettersAreNotBlank();
    ChoicesMatter("a", "h", "x", "y", "toString", map["toString" := "text"]);
    TypesMatter(map["toString" := "text"]);
    if AllEnd(anyTarget, anyChoice, anyType) {
      WaivingMoreIsNoEasier(anyTarget, anyChoice, anyType, anyTarget, false, false);
      WaivingMoreIsNoEasier(anyTarget, anyChoice, anyType, false, anyChoice, false);
      WaivingMoreIsNoEasier(anyTarget, anyChoice, anyType, false, false, anyType);
    }
  }
}
