/** The checks a flow must pass before it can be published. */
module IvrValidator {
  import opened Seqs
  import opened Graphs
  import opened IvrGraph

  datatype Fault =
    | BadType | NoFile | UnknownFile | BadTimeout | NoNext | NoChoices | NoFallback | BadRetries
    | BadDigit(key: string) | NoSurveyTargets | NoResultKey | BadAcceptedDigits | NoAction | BadOutcomes
    | NoHoursTargets | UnknownQueue | NoIdleTarget | NoBusyTarget
    | UnknownTarget(target: string)

  datatype Issue =
    | BadStart | NoNodes | TooManyNodes | Faulty(id: string, fault: Fault) | Cycle | Unreachable(id: string)

  function When(condition: bool, f: Fault): seq<Fault> { if condition then [f] else [] }

  predicate Between(x: Option<real>, lo: real, hi: real) { x.Some? && lo <= x.value <= hi }

  const SPACES: set<char> := {
    '\U{0009}', '\U{000A}', '\U{000B}', '\U{000C}', '\U{000D}', ' ', '\U{00A0}', '\U{1680}', '\U{2000}', '\U{2001}',
    '\U{2002}', '\U{2003}',
    '\U{2004}', '\U{2005}', '\U{2006}', '\U{2007}', '\U{2008}', '\U{2009}', '\U{200A}', '\U{2028}', '\U{2029}',
    '\U{202F}', '\U{205F}', '\U{3000}',
    '\U{FEFF}' }

  predicate Blank(s: string) { forall c :: c in s ==> c in SPACES }

  predicate Key(c: char) { '0' <= c <= '9' || c == '*' || c == '#' }

  predicate Dialable(s: string) { s != "" && forall c :: c in s ==> Key(c) }

  predicate Prompts(n: Node) { n.kind in {Play, Menu, Csat, CollectInput} }

  function PromptFaults(n: Node, assets: set<string>): seq<Fault> {
    if Prompts(n) then
      (if n.kind in {Play, Menu} || n.file != "" then
         (if n.file == "" then [NoFile] else When(!exists a :: a in assets && a + ".wav" == n.file, UnknownFile))
       else [])
      + When(!Between(n.timeoutSec, 1.0, 120.0), BadTimeout)
    else []
  }

  function MenuFaults(n: Node): seq<Fault> {
    if n.kind.Menu? then
      When(n.choices == [], NoChoices) + When(n.fallback == "", NoFallback)
      + When(!Between(n.maxRetries, 0.0, 5.0), BadRetries) + BadDigits(n.choices)
    else []
  }

  function SurveyFaults(n: Node): seq<Fault> {
    When(n.kind in {Csat, CollectInput} && (n.fallback == "" || n.next == ""), NoSurveyTargets)
    + if n.kind.CollectInput? then
        When(Blank(n.resultKey), NoResultKey) + When(!Dialable(n.acceptedDigits), BadAcceptedDigits)
      else []
  }

  function ActionFaults(n: Node): seq<Fault> {
    if n.kind.BusinessAction? then
      When(Blank(n.action), NoAction) + When(!Between(n.timeoutSec, 1.0, 120.0), BadTimeout)
      + When(n.choices == [] || exists c :: c in n.choices && Blank(c.0), BadOutcomes)
      + When(n.fallback == "", NoFallback)
    else []
  }

  function ConditionFaults(n: Node, queues: set<string>): seq<Fault> {
    When(n.kind.TimeCondition? && (n.open == "" || n.closed == ""), NoHoursTargets)
    + (if n.kind.QueueCondition? then
         When(n.queueId !in queues, UnknownQueue) + When(n.open == "", NoIdleTarget)
         + When(BusyTarget(n) == "", NoBusyTarget)
       else [])
    + When(n.kind.RouteQueue? && n.queueId !in queues, UnknownQueue)
  }

  /** The faults of one node, in the order the source looks for them. */
  function Faults(d: Doc, n: Node, queues: set<string>, assets: set<string>): seq<Fault> {
    if n.kind.UnknownKind? then [BadType]
    else
      PromptFaults(n, assets) + When(n.kind.Play? && n.next == "", NoNext) + MenuFaults(n) + SurveyFaults(n)
      + ActionFaults(n) + ConditionFaults(n, queues) + TargetFaults(d, Outgoing(n))
  }

  predicate HasKey(choices: seq<(string, string)>, key: string) {
    exists i :: 0 <= i < |choices| && choices[i].0 == key
  }

  function BadDigits(choices: seq<(string, string)>): (r: seq<Fault>)
    ensures forall f :: f in r <==> f.BadDigit? && !OneKey(f.key) && HasKey(choices, f.key)
  {
    if choices == [] then []
    else
      var last := choices[|choices| - 1];
      BadDigits(choices[..|choices| - 1]) + When(!OneKey(last.0), BadDigit(last.0))
  }

  predicate OneKey(s: string) { |s| == 1 && Key(s[0]) }

  function TargetFaults(d: Doc, ts: seq<string>): seq<Fault> {
    if ts == [] then [] else When(ts[0] != "" && Get(d, ts[0]).None?, UnknownTarget(ts[0])) + TargetFaults(d, ts[1..])
  }

  // ---------------------------------------------------------------- what each fault means

  /** The name of an uploaded asset. */
  predicate Uploaded(assets: set<string>, file: string) { exists a :: a in assets && a + ".wav" == file }

  /** What is wrong with a node that has the fault. */
  predicate HasFault(d: Doc, n: Node, queues: set<string>, assets: set<string>, f: Fault) {
    match f
    case BadType => n.kind.UnknownKind?
    case NoFile => n.kind in {Play, Menu} && n.file == ""
    case UnknownFile => Prompts(n) && n.file != "" && !Uploaded(assets, n.file)
    case BadTimeout => (Prompts(n) || n.kind.BusinessAction?) && !Between(n.timeoutSec, 1.0, 120.0)
    case NoNext => n.kind.Play? && n.next == ""
    case NoChoices => n.kind.Menu? && n.choices == []
    case NoFallback => n.kind in {Menu, BusinessAction} && n.fallback == ""
    case BadRetries => n.kind.Menu? && !Between(n.maxRetries, 0.0, 5.0)
    case BadDigit(key) => n.kind.Menu? && HasKey(n.choices, key) && !OneKey(key)
    case NoSurveyTargets => n.kind in {Csat, CollectInput} && (n.next == "" || n.fallback == "")
    case NoResultKey => n.kind.CollectInput? && Blank(n.resultKey)
    case BadAcceptedDigits => n.kind.CollectInput? && !Dialable(n.acceptedDigits)
    case NoAction => n.kind.BusinessAction? && Blank(n.action)
    case BadOutcomes => n.kind.BusinessAction? && (n.choices == [] || exists c :: c in n.choices && Blank(c.0))
    case NoHoursTargets => n.kind.TimeCondition? && (n.open == "" || n.closed == "")
    case UnknownQueue => n.kind in {QueueCondition, RouteQueue} && n.queueId !in queues
    case NoIdleTarget => n.kind.QueueCondition? && n.open == ""
    case NoBusyTarget => n.kind.QueueCondition? && n.busy == "" && n.closed == ""
    case UnknownTarget(target) => target != "" && Leads(n, target) && target !in d.nodes && target !in d.inherited
  }

  lemma {:induction false} TargetFaultsAre(d: Doc, ts: seq<string>, f: Fault)
    ensures f in TargetFaults(d, ts) <==> f.UnknownTarget? && f.target in ts && f.target != "" && Get(d, f.target).None?
  {
    if ts == [] {
    } else {
      TargetFaultsAre(d, ts[1..], f);
    }
  }

  lemma InEither(a: seq<Fault>, b: seq<Fault>, f: Fault)
    ensures f in a + b <==> f in a || f in b
  {
  }

  lemma PromptFaultsAre(d: Doc, n: Node, queues: set<string>, assets: set<string>, f: Fault)
    ensures f in PromptFaults(n, assets) <==>
      f in {NoFile, UnknownFile, BadTimeout} && Prompts(n) && HasFault(d, n, queues, assets, f)
  {
    hide Between, Blank, Dialable, Leads, HasKey;
  }

  lemma MenuFaultsAre(d: Doc, n: Node, queues: set<string>, assets: set<string>, f: Fault)
    ensures f in MenuFaults(n) <==>
      (f in {NoChoices, NoFallback, BadRetries} || f.BadDigit?) && n.kind.Menu? && HasFault(d, n, queues, assets, f)
  {
    hide Between, OneKey, Leads;
  }

  lemma SurveyFaultsAre(d: Doc, n: Node, queues: set<string>, assets: set<string>, f: Fault)
    ensures f in SurveyFaults(n) <==>
      f in {NoSurveyTargets, NoResultKey, BadAcceptedDigits} && HasFault(d, n, queues, assets, f)
  {
    hide Between, Blank, Dialable, Leads, HasKey;
  }

  lemma ActionFaultsAre(d: Doc, n: Node, queues: set<string>, assets: set<string>, f: Fault)
    ensures f in ActionFaults(n) <==>
      f in {NoAction, BadTimeout, BadOutcomes, NoFallback} && n.kind.BusinessAction?
        && HasFault(d, n, queues, assets, f)
  {
    hide Between, Blank, Dialable, Leads, HasKey;
  }

  lemma ConditionFaultsAre(d: Doc, n: Node, queues: set<string>, assets: set<string>, f: Fault)
    ensures f in ConditionFaults(n, queues) <==>
      f in {NoHoursTargets, UnknownQueue, NoIdleTarget, NoBusyTarget} && HasFault(d, n, queues, assets, f)
  {
    hide Between, Blank, Dialable, Leads, HasKey;
  }

  lemma FaultsAreParts(d: Doc, n: Node, queues: set<string>, assets: set<string>, f: Fault)
    requires !n.kind.UnknownKind?
    ensures f in Faults(d, n, queues, assets) <==>
      || f in PromptFaults(n, assets) || (f == NoNext && n.kind.Play? && n.next == "") || f in MenuFaults(n)
      || f in SurveyFaults(n) || f in ActionFaults(n) || f in ConditionFaults(n, queues)
      || f in TargetFaults(d, Outgoing(n))
  {
    hide PromptFaults, MenuFaults, SurveyFaults, ActionFaults, ConditionFaults, TargetFaults, Outgoing;
    var a := PromptFaults(n, assets) + When(n.kind.Play? && n.next == "", NoNext);
    InEither(PromptFaults(n, assets), When(n.kind.Play? && n.next == "", NoNext), f);
    InEither(a, MenuFaults(n), f);
    InEither(a + MenuFaults(n), SurveyFaults(n), f);
    InEither(a + MenuFaults(n) + SurveyFaults(n), ActionFaults(n), f);
    InEither(a + MenuFaults(n) + SurveyFaults(n) + ActionFaults(n), ConditionFaults(n, queues), f);
    InEither(a + MenuFaults(n) + SurveyFaults(n) + ActionFaults(n) + ConditionFaults(n, queues),
             TargetFaults(d, Outgoing(n)), f);
  }

  /** The pass over a node finds exactly its faults. */
  lemma FaultsAreFound(d: Doc, n: Node, queues: set<string>, assets: set<string>, f: Fault)
    ensures f in Faults(d, n, queues, assets) <==> HasFault(d, n, queues, assets, f)
  {
    if !n.kind.UnknownKind? {
      FaultsAreParts(d, n, queues, assets, f);
      PromptFaultsAre(d, n, queues, assets, f);
      MenuFaultsAre(d, n, queues, assets, f);
      SurveyFaultsAre(d, n, queues, assets, f);
      ActionFaultsAre(d, n, queues, assets, f);
      ConditionFaultsAre(d, n, queues, assets, f);
      TargetFaultsAre(d, Outgoing(n), f);
      if f.UnknownTarget? && f.target != "" {
        OutgoingLeads(n, f.target);
      }
      hide Faults;
    }
    hide PromptFaults, MenuFaults, SurveyFaults, ActionFaults, ConditionFaults, TargetFaults, Outgoing, Leads;
    hide Blank, Dialable, Between, OneKey, HasKey, Uploaded;
  }

  /** Something is written there besides white space. */
  predicate Written(s: string) { exists i :: 0 <= i < |s| && s[i] !in SPACES }

  /** A node as it should be, by its type. */
  ghost predicate WellFormed(d: Doc, n: Node, queues: set<string>, assets: set<string>) {
    && (match n.kind
        case Play => Uploaded(assets, n.file) && n.file != "" && Timely(n) && n.next != ""
        case Menu =>
          && Uploaded(assets, n.file) && n.file != "" && Timely(n) && n.fallback != "" && n.choices != []
          && (forall c :: c in n.choices ==> |c.0| == 1 && c.0[0] in KEYS)
          && n.maxRetries.Some? && 0.0 <= n.maxRetries.value <= 5.0
        case Csat => (n.file == "" || Uploaded(assets, n.file)) && Timely(n) && n.next != "" && n.fallback != ""
        case CollectInput =>
          && (n.file == "" || Uploaded(assets, n.file)) && Timely(n) && n.next != "" && n.fallback != ""
          && Written(n.resultKey) && n.acceptedDigits != "" && (forall c :: c in n.acceptedDigits ==> c in KEYS)
        case BusinessAction =>
          && Written(n.action) && Timely(n) && n.fallback != "" && n.choices != []
          && (forall c :: c in n.choices ==> Written(c.0))
        case TimeCondition => n.open != "" && n.closed != ""
        case QueueCondition => n.queueId in queues && n.open != "" && (n.busy != "" || n.closed != "")
        case RouteQueue => n.queueId in queues
        case UnknownKind => false
        case _ => true)
    && (forall target :: target != "" && Leads(n, target) ==> target in d.nodes || target in d.inherited)
  }

  predicate Timely(n: Node) { n.timeoutSec.Some? && 1.0 <= n.timeoutSec.value <= 120.0 }

  const KEYS := "0123456789*#"

  lemma KeysAreListed(c: char)
    ensures Key(c) <==> c in KEYS
  {
    assert KEYS[10] == '*' && KEYS[11] == '#';
    if '0' <= c <= '9' {
      var i := c as int - '0' as int;
      assert KEYS[i] == c;
    }
  }

  lemma DialableIsListed(s: string)
    ensures Dialable(s) <==> s != "" && forall c :: c in s ==> c in KEYS
  {
    forall c | c in s
      ensures Key(c) <==> c in KEYS
    {
      KeysAreListed(c);
    }
  }

  lemma OneKeyIsListed()
    ensures forall s: string :: OneKey(s) <==> |s| == 1 && s[0] in KEYS
  {
    forall s: string | |s| == 1
      ensures Key(s[0]) <==> s[0] in KEYS
    {
      KeysAreListed(s[0]);
    }
  }

  ghost predicate Faultless(d: Doc, n: Node, queues: set<string>, assets: set<string>) {
    forall f :: !HasFault(d, n, queues, assets, f)
  }

  lemma FaultlessTargets(d: Doc, n: Node, queues: set<string>, assets: set<string>)
    requires Faultless(d, n, queues, assets)
    ensures forall target :: target != "" && Leads(n, target) ==> target in d.nodes || target in d.inherited
    ensures n.kind.Menu? ==> forall c :: c in n.choices ==> OneKey(c.0)
  {
    forall target | target != "" && Leads(n, target)
      ensures target in d.nodes || target in d.inherited
    {
      assert !HasFault(d, n, queues, assets, UnknownTarget(target));
    }
    forall c | n.kind.Menu? && c in n.choices
      ensures OneKey(c.0)
    {
      assert !HasFault(d, n, queues, assets, BadDigit(c.0));
    }
  }

  /** A node has no fault exactly if it is well-formed. */
  lemma FaultlessIffWellFormed(d: Doc, n: Node, queues: set<string>, assets: set<string>)
    ensures Faultless(d, n, queues, assets) <==> WellFormed(d, n, queues, assets)
  {
    DialableIsListed(n.acceptedDigits);
    WrittenIsNotBlank();
    OneKeyIsListed();
    hide Dialable, Leads, Blank, Written, OneKey, Key;
    if Faultless(d, n, queues, assets) {
      FaultlessTargets(d, n, queues, assets);
      FaultlessPrompt(d, n, queues, assets);
      FaultlessSurvey(d, n, queues, assets);
      FaultlessCondition(d, n, queues, assets);
    }
  }

  lemma FaultlessPrompt(d: Doc, n: Node, queues: set<string>, assets: set<string>)
    requires Faultless(d, n, queues, assets)
    ensures Prompts(n) ==> Timely(n) && (n.file == "" || Uploaded(assets, n.file))
    ensures n.kind in {Play, Menu} ==> n.file != ""
    ensures n.kind.Play? ==> n.next != ""
    ensures n.kind.Menu? ==> n.choices != [] && n.fallback != "" && Between(n.maxRetries, 0.0, 5.0)
  {
    assert !HasFault(d, n, queues, assets, NoFile) && !HasFault(d, n, queues, assets, UnknownFile);
    assert !HasFault(d, n, queues, assets, BadTimeout) && !HasFault(d, n, queues, assets, NoNext);
    assert !HasFault(d, n, queues, assets, NoChoices) && !HasFault(d, n, queues, assets, NoFallback);
    assert !HasFault(d, n, queues, assets, BadRetries);
  }

  lemma FaultlessSurvey(d: Doc, n: Node, queues: set<string>, assets: set<string>)
    requires Faultless(d, n, queues, assets)
    ensures n.kind in {Csat, CollectInput} ==> n.next != "" && n.fallback != ""
    ensures n.kind.CollectInput? ==> Written(n.resultKey) && Dialable(n.acceptedDigits)
    ensures n.kind.BusinessAction? ==> Written(n.action) && Timely(n) && n.fallback != "" && n.choices != []
    ensures n.kind.BusinessAction? ==> forall c :: c in n.choices ==> Written(c.0)
  {
    hide Dialable, Blank, Written, Leads, HasKey, OneKey, Uploaded;
    assert !HasFault(d, n, queues, assets, NoSurveyTargets) && !HasFault(d, n, queues, assets, NoResultKey);
    assert !HasFault(d, n, queues, assets, BadAcceptedDigits) && !HasFault(d, n, queues, assets, NoAction);
    assert !HasFault(d, n, queues, assets, BadTimeout) && !HasFault(d, n, queues, assets, BadOutcomes);
    assert !HasFault(d, n, queues, assets, NoFallback);
    WrittenIsNotBlank();
  }

  lemma WrittenIsNotBlank()
    ensures forall s: string :: Written(s) <==> !Blank(s)
  {
    forall s: string
      ensures Written(s) <==> !Blank(s)
    {
      if Written(s) {
        var i :| 0 <= i < |s| && s[i] !in SPACES;
        assert s[i] in s;
      }
    }
  }

  lemma FaultlessCondition(d: Doc, n: Node, queues: set<string>, assets: set<string>)
    requires Faultless(d, n, queues, assets)
    ensures !n.kind.UnknownKind?
    ensures n.kind.TimeCondition? ==> n.open != "" && n.closed != ""
    ensures n.kind.QueueCondition? ==> n.open != "" && (n.busy != "" || n.closed != "")
    ensures n.kind in {QueueCondition, RouteQueue} ==> n.queueId in queues
  {
    hide Dialable, Blank, Leads, HasKey, OneKey, Uploaded;
    assert !HasFault(d, n, queues, assets, BadType) && !HasFault(d, n, queues, assets, NoHoursTargets);
    assert !HasFault(d, n, queues, assets, UnknownQueue) && !HasFault(d, n, queues, assets, NoIdleTarget);
    assert !HasFault(d, n, queues, assets, NoBusyTarget);
  }

  /** The node knows where to go in every case. */
  predicate Complete(d: Doc, n: Node) {
    && !n.kind.UnknownKind?
    && (n.kind.Play? ==> n.next != "")
    && (n.kind in {Menu, BusinessAction} ==> n.fallback != "")
    && (n.kind in {Csat, CollectInput} ==> n.next != "" && n.fallback != "")
    && (n.kind.TimeCondition? ==> n.open != "" && n.closed != "")
    && (n.kind.QueueCondition? ==> n.open != "" && BusyTarget(n) != "")
    && (forall t :: t in Outgoing(n) && t != "" ==> Get(d, t).Some?)
  }

  lemma WellFormedIsComplete(d: Doc, n: Node, queues: set<string>, assets: set<string>)
    requires WellFormed(d, n, queues, assets)
    ensures Complete(d, n)
  {
    forall t | t in Outgoing(n) && t != ""
      ensures Get(d, t).Some?
    {
      OutgoingLeads(n, t);
    }
  }

  // ---------------------------------------------------------------- the walk

  /** What the depth-first walk knows. `height` gives the moment the walk left a node, `stack` is the path of the
      nodes it is in, `loop` a loop it has closed. */
  datatype Search<!T> = Search(visiting: set<T>, visited: set<T>, cycle: bool, clock: nat, height: map<T, nat>,
    stack: seq<T>, loop: seq<T>)

  ghost predicate Sets<T>(reach: set<T>, s: Search<T>) {
    && s.visiting <= s.visited <= reach && s.height.Keys == s.visited - s.visiting
    && (forall v :: v in s.visiting ==> v in s.stack)
    && (forall v :: v in s.height ==> s.height[v] < s.clock)
  }

  ghost predicate Order<T(!new)>(g: Graph<T>, reach: set<T>, s: Search<T>) {
    && Linked(g, s.stack)
    && (forall v, w {:trigger Edge(g, v, w)} :: v in s.height && Edge(g, v, w) ==> w in s.visited)
    && (if s.cycle then Loop(g, s.loop) && s.loop[0] in reach else Descending(g, s.height))
  }

  ghost predicate Sound<T(!new)>(g: Graph<T>, reach: set<T>, s: Search<T>) {
    Sets(reach, s) && Order(g, reach, s)
  }

  ghost predicate Continues<T>(g: Graph<T>, stack: seq<T>, id: T) { stack == [] || Edge(g, stack[|stack| - 1], id) }

  ghost function Entered<T>(s: Search<T>, id: T): Search<T> {
    s.(visiting := s.visiting + {id}, visited := s.visited + {id}, stack := s.stack + [id])
  }

  lemma EnterKeeps<T(!new)>(g: Graph<T>, reach: set<T>, s: Search<T>, id: T)
    requires Sound(g, reach, s) && id in reach && id !in s.visited && Continues(g, s.stack, id)
    ensures Sound(g, reach, Entered(s, id))
  {
    LinkedSnoc(g, s.stack, id);
  }

  ghost function Left<T>(s: Search<T>, before: seq<T>, id: T): Search<T> {
    s.(visiting := s.visiting - {id}, clock := s.clock + 1, height := s.height[id := s.clock], stack := before)
  }

  lemma LeaveKeeps<T(!new)>(g: Graph<T>, reach: set<T>, s: Search<T>, before: seq<T>, id: T)
    requires Sound(g, reach, s) && id in s.visiting && s.stack == before + [id]
    requires forall w :: Edge(g, id, w) ==> w in s.visited && (!s.cycle ==> w in s.height)
    ensures Sound(g, reach, Left(s, before, id))
  {
    var t := Left(s, before, id);
    assert t.height.Keys == s.height.Keys + {id};
    assert Linked(g, before) by {
      forall i, j | 0 <= i < j < |before| && j == i + 1
        ensures Edge(g, before[i], before[j])
      {
        assert Edge(g, s.stack[i], s.stack[j]);
      }
    }
  }

  /** A call of the walk returns to where it was called, having visited no less. */
  ghost predicate Within<T>(s: Search<T>, t: Search<T>) {
    && t.stack == s.stack && t.visiting == s.visiting && s.visited <= t.visited && s.height.Keys <= t.height.Keys
    && (s.cycle ==> t.cycle)
  }

  lemma LeaveReturns<T(!new)>(g: Graph<T>, reach: set<T>, s: Search<T>, t: Search<T>, id: T)
    requires Sound(g, reach, s) && id !in s.visited && Within(Entered(s, id), t)
    ensures t.stack == s.stack + [id] && id in t.visiting && Within(s, Left(t, s.stack, id))
    ensures var u := Left(t, s.stack, id);
      id in u.height && u.visiting == t.visiting - {id} && u.visited == t.visited && u.cycle == t.cycle
  {
  }

  /** The recursive walk over two sets. `state` is what the walk knows, beyond what it remembers. */
  class Walker<!T(==,!new)> {
    const g: Graph<T>
    ghost const reach: set<T>
    var visiting: set<T>
    var visited: set<T>
    var cycle: bool
    ghost var state: Search<T>

    constructor (g: Graph<T>, ghost start: T)
      ensures this.g == g && reach == Reach(g, start) && Valid()
      ensures state == Search({}, {}, false, 0, map[], [], [])
    {
      this.g := g;
      reach := Reach(g, start);
      visiting, visited, cycle := {}, {}, false;
      state := Search({}, {}, false, 0, map[], [], []);
      new;
      ReachIsClosed(g, start);
    }

    ghost predicate Valid()
      reads this
    {
      && visiting == state.visiting && visited == state.visited && cycle == state.cycle
      && reach <= g.Keys && Closed(g, reach) && Sound(g, reach, state)
    }

    method Walk(id: T)
      requires Valid() && id in reach && Continues(g, state.stack, id)
      modifies this
      ensures Valid() && Within(old(state), state)
      ensures id in visited && (!cycle ==> id in state.height)
      decreases |g.Keys - visited|, 1
    {
      if id in visiting {
        ghost var loop := ClosingTheLoop(g, state.stack, id);
        cycle := true;
        state := state.(cycle := true, loop := loop);
        return;
      }
      if id in visited {
        return;
      }
      Visit(id);
    }

    /** The part of the walk that enters a node, follows its branches and leaves it again. */
    method Visit(id: T)
      requires Valid() && id in reach && id !in visited && Continues(g, state.stack, id)
      modifies this
      ensures Valid() && Within(old(state), state)
      ensures id in state.height
      decreases |g.Keys - visited|, 0
    {
      hide Sound, Closed, Within, Left;
      EnterKeeps(g, reach, state, id);
      visiting, visited := visiting + {id}, visited + {id};
      state := Entered(state, id);
      Shrinks(g.Keys - visited, g.Keys - old(visited), id);
      WalkTargets(id);
      LeaveReturns(g, reach, old(state), state, id);
      LeaveKeeps(g, reach, state, old(state.stack), id);
      visiting := visiting - {id};
      state := Left(state, old(state.stack), id);
    }

    /** The loop over the branches of a node the walk has just entered. */
    method WalkTargets(id: T)
      requires Valid() && id in visiting && state.stack != [] && state.stack[|state.stack| - 1] == id
      modifies this
      ensures Valid() && Within(old(state), state)
      ensures forall w :: Edge(g, id, w) ==> w in visited && (!cycle ==> w in state.height)
      decreases |g.Keys - visited|, 2
    {
      var targets := g[id];
      var i := 0;
      while i < |targets|
        invariant 0 <= i <= |targets|
        invariant Valid() && Within(old(state), state)
        invariant forall k :: 0 <= k < i && targets[k] in g ==>
          targets[k] in visited && (!cycle ==> targets[k] in state.height)
      {
        var target := targets[i];
        if target in g {
          assert Edge(g, id, target);
          ShrinksOrStays(g.Keys - visited, g.Keys - old(visited));
          Walk(target);
        }
        i := i + 1;
      }
    }
  }

  lemma Shrinks<T>(a: set<T>, b: set<T>, x: T)
    requires a <= b && x in b && x !in a
    ensures |a| < |b|
  {
    ShrinksOrStays(a, b - {x});
  }

  lemma ShrinksOrStays<T>(a: set<T>, b: set<T>)
    requires a <= b
    ensures |a| <= |b|
  {
    assert b == a + (b - a);
  }

  // ---------------------------------------------------------------- the whole validation

  predicate OfNodes(d: Doc, queues: set<string>, assets: set<string>, x: Issue) {
    x.Faulty? && x.id in d.nodes && HasFault(d, d.nodes[x.id], queues, assets, x.fault)
  }

  /** Exactly what the validation reports, and why. */
  ghost predicate Reported(d: Doc, queues: set<string>, assets: set<string>, x: Issue) {
    OfDocument(d, x) || OfNodes(d, queues, assets, x) || OfFlow(d, x)
  }

  function Blames(id: string, faults: seq<Fault>): (r: seq<Issue>)
    ensures forall x :: x in r <==> x.Faulty? && x.id == id && x.fault in faults
  {
    if faults == [] then [] else Blames(id, faults[..|faults| - 1]) + [Faulty(id, faults[|faults| - 1])]
  }

  /** The first occurrence of every issue. */
  function Distinct(xs: seq<Issue>): (r: seq<Issue>)
    ensures forall x :: x in r <==> x in xs
    ensures forall i, j :: 0 <= i < j < |r| ==> r[i] != r[j]
  {
    if xs == [] then []
    else
      var r := Distinct(xs[..|xs| - 1]);
      if xs[|xs| - 1] in r then r else r + [xs[|xs| - 1]]
  }

  /** Walks the graph from its start: the verdict on cycles and the set of nodes it came to are exact. */
  method WalkFromStart(g: Graph<string>, start: string) returns (visited: set<string>, cycle: bool)
    requires start in g
    ensures cycle <==> Cyclic(g, start)
    ensures visited == Reach(g, start)
  {
    var walker := new Walker(g, start);
    walker.Walk(start);
    visited, cycle := walker.visited, walker.cycle;
    ghost var s := walker.state;
    assert s.height.Keys == visited;
    assert Closed(g, visited);
    ClosedKeepsReachable(g, visited, start);
    if cycle {
      LoopIsCycle(g, start, s.loop);
    } else {
      HeightsRuleOutCycles(g, start, s.height);
    }
  }

  lemma BlamesAreFaults(d: Doc, id: string, queues: set<string>, assets: set<string>)
    requires id in d.nodes
    ensures forall x :: x in Blames(id, Faults(d, d.nodes[id], queues, assets)) <==>
      x.Faulty? && x.id == id && HasFault(d, d.nodes[id], queues, assets, x.fault)
  {
    hide HasFault, Faults;
    forall x: Issue | x.Faulty?
      ensures x.fault in Faults(d, d.nodes[id], queues, assets) <==> HasFault(d, d.nodes[id], queues, assets, x.fault)
    {
      FaultsAreFound(d, d.nodes[id], queues, assets, x.fault);
    }
  }

  /** The pass over the nodes themselves. */
  method CheckNodes(d: Doc, queues: set<string>, assets: set<string>) returns (issues: seq<Issue>)
    ensures forall x :: x in issues <==> OfNodes(d, queues, assets, x)
  {
    hide HasFault, Faults, Blames;
    issues := [];
    var k := 0;
    while k < |d.ids|
      invariant 0 <= k <= |d.ids|
      invariant forall x :: x in issues <==>
        x.Faulty? && x.id in d.ids[..k] && HasFault(d, d.nodes[x.id], queues, assets, x.fault)
    {
      BlamesAreFaults(d, d.ids[k], queues, assets);
      assert d.ids[..k + 1] == d.ids[..k] + [d.ids[k]];
      issues := issues + Blames(d.ids[k], Faults(d, d.nodes[d.ids[k]], queues, assets));
      k := k + 1;
    }
  }

  /** The pass that looks for nodes the walk never came to. */
  method CheckVisited(d: Doc, visited: set<string>) returns (issues: seq<Issue>)
    ensures forall x :: x in issues <==> x.Unreachable? && x.id in d.nodes && x.id !in visited
  {
    issues := [];
    var k := 0;
    while k < |d.ids|
      invariant 0 <= k <= |d.ids|
      invariant forall x :: x in issues <==> x.Unreachable? && x.id in d.ids[..k] && x.id !in visited
    {
      assert d.ids[..k + 1] == d.ids[..k] + [d.ids[k]];
      if d.ids[k] !in visited {
        issues := issues + [Unreachable(d.ids[k])];
      }
      k := k + 1;
    }
  }

  predicate OfDocument(d: Doc, x: Issue) {
    match x
    case BadStart => d.start == "" || Get(d, d.start).None?
    case NoNodes => d.ids == []
    case TooManyNodes => |d.ids| > 100
    case _ => false
  }

  /** The checks on the document as a whole. */
  method CheckDocument(d: Doc) returns (issues: seq<Issue>)
    ensures forall x :: x in issues <==> OfDocument(d, x)
  {
    issues := [];
    if d.start == "" || Get(d, d.start).None? {
      issues := issues + [BadStart];
    }
    if d.ids == [] {
      issues := issues + [NoNodes];
    }
    if |d.ids| > 100 {
      issues := issues + [TooManyNodes];
    }
  }

  ghost predicate OfFlow(d: Doc, x: Issue) {
    match x
    case Cycle => Get(d, d.start).Some? && Cyclic(FlowGraph(d), d.start)
    case Unreachable(id) => Get(d, d.start).Some? && id in d.nodes && !Reachable(FlowGraph(d), d.start, id)
    case _ => false
  }

  /** The checks on the graph. */
  method CheckFlow(d: Doc) returns (issues: seq<Issue>)
    ensures forall x :: x in issues <==> OfFlow(d, x)
  {
    issues := [];
    if Get(d, d.start).Some? {
      var visited, cycle := WalkFromStart(FlowGraph(d), d.start);
      if cycle {
        issues := [Cycle];
      }
      var unvisited := CheckVisited(d, visited);
      issues := issues + unvisited;
    }
  }

  method ValidateIVR(d: Doc, queues: set<string>, assets: set<string>) returns (issues: seq<Issue>)
    ensures forall x :: x in issues <==> Reported(d, queues, assets, x)
    ensures forall i, j :: 0 <= i < j < |issues| ==> issues[i] != issues[j]
  {
    var document := CheckDocument(d);
    var nodes := CheckNodes(d, queues, assets);
    var flow := CheckFlow(d);
    issues := Distinct(document + nodes + flow);
    assert forall x :: x in issues <==> x in document || x in nodes || x in flow;
  }

  /** A flow that may be published. */
  ghost predicate Publishable(d: Doc, queues: set<string>, assets: set<string>) {
    forall x :: !Reported(d, queues, assets, x)
  }

  /** A start that is not a node of the flow leaves all its nodes unreachable. */
  lemma StartIsANode(d: Doc)
    requires d.ids != [] && Reachable(FlowGraph(d), d.start, d.ids[0])
    ensures d.start in d.nodes
  {
    if d.start !in d.nodes {
      var w := BeyondNeedsAnEdge(FlowGraph(d), d.start, d.ids[0]);
      FlowEdge(d, d.start, w);
      OnlyNodesBranch(d, d.start);
    }
  }

  /** Exactly the flows that may be published: a start that is a node, at most 100 nodes, every one of them well-formed
      and reachable from the start, and no loop. */
  lemma PublishableIffSound(d: Doc, queues: set<string>, assets: set<string>)
    ensures Publishable(d, queues, assets)
       <==> && d.start in d.nodes && d.start != "" && |d.ids| <= 100 && !Cyclic(FlowGraph(d), d.start)
            && forall id :: id in d.nodes ==>
                 WellFormed(d, d.nodes[id], queues, assets) && Reachable(FlowGraph(d), d.start, id)
  {
    hide HasFault, WellFormed, FlowGraph, Reachable, Cyclic;
    if Publishable(d, queues, assets) {
      assert !Reported(d, queues, assets, BadStart) && !Reported(d, queues, assets, NoNodes);
      assert !Reported(d, queues, assets, TooManyNodes) && !Reported(d, queues, assets, Cycle);
      forall id | id in d.nodes
        ensures WellFormed(d, d.nodes[id], queues, assets) && Reachable(FlowGraph(d), d.start, id)
      {
        forall f
          ensures !HasFault(d, d.nodes[id], queues, assets, f)
        {
          assert !Reported(d, queues, assets, Faulty(id, f));
        }
        assert !Reported(d, queues, assets, Unreachable(id));
        FaultlessIffWellFormed(d, d.nodes[id], queues, assets);
      }
      StartIsANode(d);
    } else {
      forall id | id in d.nodes
        ensures WellFormed(d, d.nodes[id], queues, assets) ==> Faultless(d, d.nodes[id], queues, assets)
      {
        FaultlessIffWellFormed(d, d.nodes[id], queues, assets);
      }
    }
  }

  /** A flow that may be published is complete. */
  lemma PublishableMeans(d: Doc, queues: set<string>, assets: set<string>)
    requires Publishable(d, queues, assets)
    ensures d.start in d.nodes && d.start != "" && 1 <= |d.ids| <= 100
    ensures forall id :: id in d.nodes ==> Complete(d, d.nodes[id]) && Reachable(FlowGraph(d), d.start, id)
    ensures !Cyclic(FlowGraph(d), d.start)
  {
    hide WellFormed, Complete, FlowGraph, Reachable, Cyclic, Publishable;
    PublishableIffSound(d, queues, assets);
    forall id | id in d.nodes
      ensures Complete(d, d.nodes[id])
    {
      WellFormedIsComplete(d, d.nodes[id], queues, assets);
    }
  }
}
