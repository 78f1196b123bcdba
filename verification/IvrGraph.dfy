/** IVR flow documents and the graph their branches span. */
module IvrGraph {
  import opened Seqs
  import opened Graphs

  /** What the text of a node's type says: one of the types there are, the name of something every JavaScript object
      inherits, or neither. */
  datatype Kind =
    | Play | Menu | TimeCondition | QueueCondition | Voicemail | Csat | CollectInput | RouteQueue
    | BusinessAction | Hangup | InheritedKind | UnknownKind

  /** A node. An absent target or text is "", which the program treats alike; `choices` lists the entries in order. */
  datatype Node = Node(
    kind: Kind, next: string, fallback: string, invalid: string, open: string, closed: string, busy: string,
    choices: seq<(string, string)>, file: string, timeoutSec: Option<real>, maxRetries: Option<real>,
    resultKey: string, acceptedDigits: string, action: string, queueId: string)

  const BLANK := Node(UnknownKind, "", "", "", "", "", "", [], "", None, None, "", "", "", "")

  /** `ids` lists the keys of `nodes` in their order. `inherited` holds the names every JavaScript object
      inherits (constructor, toString, __proto__ and the rest of Object.prototype), each with the text its value
      turns into when it is used as a key. */
  datatype RawDoc = RawDoc(start: string, ids: seq<string>, nodes: map<string, Node>, inherited: map<string, string>)

  predicate Listed(d: RawDoc) {
    && (forall i, j :: 0 <= i < j < |d.ids| ==> d.ids[i] != d.ids[j])
    && (forall id :: id in d.ids ==> id in d.nodes)
    && (forall id :: id in d.nodes ==> id in d.ids)
    && "" !in d.inherited
  }

  type Doc = d: RawDoc | Listed(d) witness RawDoc("", [], map[], map[])

  /** `nodes[id]`: an own node, something inherited that is no node at all, or nothing. */
  function Get(d: Doc, id: string): Option<Node> {
    if id in d.nodes then Some(d.nodes[id]) else if id in d.inherited then Some(BLANK) else None
  }

  function Present(target: string): seq<string> { if target == "" then [] else [target] }

  function ChoiceTargets(choices: seq<(string, string)>): seq<string> {
    seq(|choices|, i requires 0 <= i < |choices| => choices[i].1)
  }

  /** The targets of a node's branches, in order; labels play no part in the graph. */
  function Outgoing(n: Node): seq<string> {
    match n.kind
    case Play => Present(n.next)
    case Menu => ChoiceTargets(n.choices) + Present(n.fallback) + Present(n.invalid)
    case BusinessAction => ChoiceTargets(n.choices) + Present(n.fallback)
    case TimeCondition => Present(n.open) + Present(n.closed)
    case QueueCondition => Present(n.open) + Present(BusyTarget(n))
    case Csat => Present(n.next) + Present(n.fallback)
    case CollectInput => Present(n.next) + Present(n.fallback)
    case _ => []
  }

  function BusyTarget(n: Node): string { if n.busy != "" then n.busy else n.closed }

  function Targets(d: Doc, id: string): seq<string> {
    match Get(d, id)
    case Some(n) => Outgoing(n)
    case None => []
  }

  /** Everything that can be looked up. */
  function Names(d: Doc): set<string> { d.nodes.Keys + d.inherited.Keys }

  function NonEmpty(ts: seq<string>): (r: seq<string>)
    ensures forall t :: t in r <==> t in ts && t != ""
  {
    if ts == [] then [] else Present(ts[0]) + NonEmpty(ts[1..])
  }

  /** The branches a walk follows: it skips empty targets, and targets that cannot be looked up. */
  function FlowGraph(d: Doc): Graph<string> {
    map id | id in Names(d) :: NonEmpty(Targets(d, id))
  }

  lemma FlowEdge(d: Doc, a: string, b: string)
    ensures Edge(FlowGraph(d), a, b) <==> Get(d, a).Some? && b in Targets(d, a) && b != "" && Get(d, b).Some?
  {
  }

  predicate Chosen(choices: seq<(string, string)>, t: string) { exists i :: 0 <= i < |choices| && choices[i].1 == t }

  /** Which fields of a node, by its type, lead on. */
  predicate Leads(n: Node, t: string) {
    || (n.kind in {Play, Csat, CollectInput} && t == n.next)
    || (n.kind in {Menu, BusinessAction} && Chosen(n.choices, t))
    || (n.kind in {Menu, BusinessAction, Csat, CollectInput} && t == n.fallback)
    || (n.kind == Menu && t == n.invalid)
    || (n.kind in {TimeCondition, QueueCondition} && t == n.open)
    || (n.kind == TimeCondition && t == n.closed)
    || (n.kind == QueueCondition && t == if n.busy != "" then n.busy else n.closed)
  }

  lemma OutgoingLeads(n: Node, t: string)
    requires t != ""
    ensures t in Outgoing(n) <==> Leads(n, t)
  {
    var cs := ChoiceTargets(n.choices);
    assert t in cs <==> Chosen(n.choices, t) by {
      if Chosen(n.choices, t) {
        var i :| 0 <= i < |n.choices| && n.choices[i].1 == t;
        assert cs[i] == t;
      }
    }
    if n.kind in {Menu, BusinessAction} {
      assert t in cs + Present(n.fallback) <==> t in cs || t == n.fallback;
    }
  }

  /** The graph of a flow: one edge for every field that leads from a node to something that can be looked up. */
  lemma EdgesAreLeads(d: Doc, a: string, b: string)
    ensures Edge(FlowGraph(d), a, b) <==> Get(d, a).Some? && b != "" && Leads(Get(d, a).value, b) && Get(d, b).Some?
  {
    FlowEdge(d, a, b);
    if Get(d, a).Some? && b != "" {
      OutgoingLeads(Get(d, a).value, b);
    }
  }

  lemma OnlyNodesBranch(d: Doc, id: string)
    requires id !in d.nodes
    ensures Targets(d, id) == []
  {
  }
}
