/** The node and edge updates that one enriched event gives rise to. */
module GraphWriter {
  import opened GraphModel
  import opened GraphNeighbourhood
  import opened GraphUpserts
  import opened Options

  datatype EntityKind = User | Host | Process | File | Ip | Domain | Url | Hash | RegistryKey | Email | Technique | Other

  datatype Entity = Entity(kind: EntityKind, id: Id, attributes: map<string, string>)

  datatype Event = Event(
    eventType: string,
    timestamp: int,
    source: string,
    entities: seq<Entity>,
    logonType: string,
    commandLine: string,
    dstPort: string)

  const LOGON_EVENT_TYPES := {"logon", "logon_failure", "special_privileges_assigned"}
  const NETWORK_EVENT_TYPES := {"network_connection", "network_alert", "zeek_conn", "firewall_connection"}

  datatype Relation =
    | AuthenticatedTo | LoggedInTo | Spawned | Executed | Accessed | Created | Modified
    | ConnectedTo | ResolvedTo | Downloaded | Emailed | MappedToTechnique

  function RelationName(r: Relation): string {
    match r
    case AuthenticatedTo => "authenticated_to" case LoggedInTo => "logged_in_to" case Spawned => "spawned"
    case Executed => "executed" case Accessed => "accessed" case Created => "created" case Modified => "modified"
    case ConnectedTo => "connected_to" case ResolvedTo => "resolved_to" case Downloaded => "downloaded"
    case Emailed => "emailed" case MappedToTechnique => "mapped_to_technique"
  }

  function KindName(kind: EntityKind): string {
    match kind
    case User => "User" case Host => "Host" case Process => "Process" case File => "File"
    case Ip => "IP" case Domain => "Domain" case Url => "URL" case Hash => "Hash"
    case RegistryKey => "RegistryKey" case Email => "Email" case Technique => "AttackTechnique" case Other => "Other"
  }

  function SeenIn(event: Event, properties: map<string, string>): Sightings {
    Sightings(1, event.timestamp, {event.source}, properties, [])
  }

  function BuildNode(entity: Entity, event: Event): Node {
    Node(entity.id, KindName(entity.kind), SeenIn(event, entity.attributes))
  }

  function BuildEdge(src: Entity, dst: Entity, r: Relation, event: Event, properties: map<string, string> := map[]): Edge {
    Edge(src.id, RelationName(r), dst.id, SeenIn(event, properties))
  }

  // Which entities of an event are related, and how.

  ghost predicate Is(es: seq<Entity>, kind: EntityKind, i: nat) {
    i < |es| && es[i].kind == kind
  }

  ghost predicate Absent(es: seq<Entity>, kind: EntityKind) {
    forall i: nat :: !Is(es, kind, i)
  }

  ghost predicate First(es: seq<Entity>, kind: EntityKind, i: nat) {
    Is(es, kind, i) && forall h: nat | h < i :: !Is(es, kind, h)
  }

  ghost predicate Last(es: seq<Entity>, kind: EntityKind, i: nat) {
    Is(es, kind, i) && forall h: nat | h > i :: !Is(es, kind, h)
  }

  ghost predicate Only(es: seq<Entity>, kind: EntityKind, i: nat) {
    First(es, kind, i) && Last(es, kind, i)
  }

  /** The first two of a kind, in this order. */
  ghost predicate FirstTwo(es: seq<Entity>, kind: EntityKind, i: nat, j: nat) {
    First(es, kind, i) && i < j && Is(es, kind, j) && forall h: nat | i < h < j :: !Is(es, kind, h)
  }

  /** The first of one kind, or else the first of another. */
  ghost predicate Preferred(es: seq<Entity>, kind: EntityKind, other: EntityKind, i: nat) {
    if Absent(es, kind) then First(es, other, i) else First(es, kind, i)
  }

  /** Whatever did it: the first process, or else host, or else user. */
  ghost predicate Subject(es: seq<Entity>, i: nat) {
    if Absent(es, Process) then Preferred(es, Host, User, i) else First(es, Process, i)
  }

  /** An edge to be: from entity number `src` to entity number `dst` of the event. */
  datatype Link = Link(src: nat, relation: Relation, dst: nat)

  /** Which entities of the event each relation joins. */
  ghost predicate Related(event: Event, l: Link) {
    var es := event.entities;
    match l.relation
    case AuthenticatedTo =>
      && First(es, User, l.src) && First(es, Host, l.dst)
      && event.eventType in {"logon", "logon_failure", "special_privileges_assigned"}
    case LoggedInTo => First(es, User, l.src) && First(es, Host, l.dst)
    case Spawned => FirstTwo(es, Process, l.dst, l.src)
    case Executed => First(es, Host, l.src) && Only(es, Process, l.dst)
    case Accessed =>
      || (event.eventType == "process_access" && First(es, Process, l.src) && Is(es, File, l.dst))
      || (Absent(es, Process) && Preferred(es, User, Host, l.src) && First(es, Url, l.dst))
    case Downloaded => First(es, Process, l.src) && First(es, Url, l.dst)
    case Created =>
      || (event.eventType == "file_create" && Preferred(es, Process, Host, l.src) && Is(es, File, l.dst))
      || (First(es, Process, l.src) && First(es, Hash, l.dst))
    case Modified =>
      || (event.eventType in {"file_modify", "file_delete"} && Preferred(es, Process, Host, l.src) && Is(es, File, l.dst))
      || (First(es, Process, l.src) && First(es, RegistryKey, l.dst))
    case ConnectedTo =>
      || (FirstTwo(es, Ip, l.src, l.dst) && Last(es, Ip, l.dst))
      || (First(es, Host, l.src) && Only(es, Ip, l.dst)
          && event.eventType in {"network_connection", "network_alert", "zeek_conn", "firewall_connection"})
    case ResolvedTo => First(es, Domain, l.src) && Last(es, Ip, l.dst)
    case Emailed => First(es, Email, l.src) && First(es, User, l.dst)
    case MappedToTechnique => Subject(es, l.src) && Is(es, Technique, l.dst)
  }

  // The order of the edges: first by relation and target kind, then by the place of the target.

  const PLACES: nat := 12

  function Place(event: Event, l: Link): nat {
    var file := l.dst < |event.entities| && event.entities[l.dst].kind == File;
    match l.relation
    case AuthenticatedTo => 0
    case LoggedInTo => 1
    case Spawned => 2
    case Executed => 2
    case Accessed => if file then 3 else 7
    case Created => if file then 4 else 10
    case Modified => if file then 4 else 8
    case ConnectedTo => 5
    case ResolvedTo => 6
    case Downloaded => 7
    case Emailed => 9
    case MappedToTechnique => 11
  }

  predicate Before(event: Event, a: Link, b: Link) {
    Place(event, a) < Place(event, b) || (Place(event, a) == Place(event, b) && a.dst < b.dst)
  }

  ghost predicate Ordered(event: Event, links: seq<Link>) {
    forall i, j | 0 <= i < j < |links| :: Before(event, links[i], links[j])
  }

  /** Exactly the related links of the places below `place`, each once and in order. */
  ghost predicate Lists(event: Event, links: seq<Link>, place: nat) {
    Ordered(event, links) && forall l :: l in links <==> Related(event, l) && Place(event, l) < place
  }

  function Properties(event: Event, r: Relation): map<string, string> {
    match r
    case AuthenticatedTo => map["logon_type" := event.logonType]
    case Spawned => map["command_line" := event.commandLine]
    case ConnectedTo => map["dst_port" := event.dstPort]
    case _ => map[]
  }

  /** The edge of a link. */
  ghost predicate IsEdgeOf(event: Event, e: Edge, l: Link) {
    var es := event.entities;
    && l.src < |es| && l.dst < |es|
    && e.src == es[l.src].id && e.dst == es[l.dst].id && e.kind == RelationName(l.relation)
    && SeenOnce(e.seen, event) && e.seen.properties == Properties(event, l.relation)
  }

  ghost predicate EdgesFor(event: Event, edges: seq<Edge>, links: seq<Link>) {
    |edges| == |links| && forall i | 0 <= i < |links| :: IsEdgeOf(event, edges[i], links[i])
  }

  /** One sighting, at the time of the event and by its source. */
  ghost predicate SeenOnce(seen: Sightings, event: Event) {
    seen.count == 1 && seen.lastSeen == event.timestamp && seen.sources == {event.source} && seen.observations == []
  }

  ghost predicate IsNodeOf(event: Event, node: Node, entity: Entity) {
    && node.id == entity.id && node.kind == KindName(entity.kind)
    && SeenOnce(node.seen, event) && node.seen.properties == entity.attributes
  }

  ghost predicate NodesFor(event: Event, nodes: seq<Node>) {
    |nodes| == |event.entities| && forall i | 0 <= i < |nodes| :: IsNodeOf(event, nodes[i], event.entities[i])
  }

  /** What the updates of an event are: a node for every entity, an edge for every related pair. */
  ghost predicate Derived(event: Event, nodes: seq<Node>, edges: seq<Edge>) {
    NodesFor(event, nodes) && exists links :: Lists(event, links, PLACES) && EdgesFor(event, edges, links)
  }

  // The finders.

  function Find(es: seq<Entity>, kind: EntityKind): (r: Option<nat>)
    ensures r.Some? ==> First(es, kind, r.value)
    ensures r.None? ==> Absent(es, kind)
  {
    if es == [] then None
    else
      var n := |es| - 1;
      var r := Find(es[..n], kind);
      assert forall i: nat | i < n :: Is(es, kind, i) <==> Is(es[..n], kind, i);
      if r.Some? then r else if es[n].kind == kind then Some(n) else None
  }

  function All(es: seq<Entity>, kind: EntityKind): (r: seq<nat>)
    ensures forall i: nat :: i in r <==> Is(es, kind, i)
    ensures Increasing(r)
  {
    if es == [] then []
    else
      var n := |es| - 1;
      var r := All(es[..n], kind);
      assert forall i: nat | i < n :: Is(es, kind, i) <==> Is(es[..n], kind, i);
      assert forall k | 0 <= k < |r| :: Is(es[..n], kind, r[k]) by { assert forall k | 0 <= k < |r| :: r[k] in r; }
      if es[n].kind == kind then r + [n] else r
  }

  ghost predicate Increasing(s: seq<nat>) {
    forall i, j | 0 <= i < j < |s| :: s[i] < s[j]
  }

  /** Python's `a or b` on optional entities. */
  function Or(a: Option<nat>, b: Option<nat>): Option<nat> {
    if a.Some? then a else b
  }

  // One place after the other.

  /** `added` are exactly the related links of one place, in order. */
  ghost predicate Fills(event: Event, place: nat, added: seq<Link>) {
    && (forall l :: l in added <==> Related(event, l) && Place(event, l) == place)
    && (forall i, j | 0 <= i < j < |added| :: added[i].dst < added[j].dst)
  }

  lemma ListsMore(event: Event, links: seq<Link>, place: nat, added: seq<Link>)
    requires Lists(event, links, place) && Fills(event, place, added)
    ensures Lists(event, links + added, place + 1)
  {
    hide Related, Place;
    var all := links + added;
    forall i, j | 0 <= i < j < |all| ensures Before(event, all[i], all[j]) {
      assert i < |links| ==> links[i] in links;
      assert i >= |links| ==> added[i - |links|] in added;
      assert j < |links| ==> links[j] in links;
      assert j >= |links| ==> added[j - |links|] in added;
    }
  }

  ghost function Fan(src: nat, r: Relation, targets: seq<nat>): seq<Link> {
    seq(|targets|, i requires 0 <= i < |targets| => Link(src, r, targets[i]))
  }

  /** The state before a place: the edges so far are those of the links so far. */
  ghost predicate Upto(event: Event, edges: seq<Edge>, links: seq<Link>, place: nat) {
    Lists(event, links, place) && EdgesFor(event, edges, links)
  }

  lemma NothingUpto(event: Event)
    ensures Upto(event, [], [], 0)
  {
  }

  lemma NextPlace(event: Event, edges: seq<Edge>, links: seq<Link>, place: nat, more: seq<Edge>, added: seq<Link>)
    requires Upto(event, edges, links, place) && Fills(event, place, added) && EdgesFor(event, more, added)
    ensures Upto(event, edges + more, links + added, place + 1)
  {
    ListsMore(event, links, place, added);
    hide Lists, Fills, IsEdgeOf;
  }

  /** The edges of one place. */
  ghost predicate Emits(event: Event, edges: seq<Edge>, links: seq<Link>, place: nat) {
    Fills(event, place, links) && EdgesFor(event, edges, links)
  }

  /** Authentication of the user to the host. */
  method AuthenticationEdges(event: Event) returns (edges: seq<Edge>, ghost links: seq<Link>)
    ensures Emits(event, edges, links, 0)
  {
    var es := event.entities;
    var user, host := Find(es, User), Find(es, Host);
    edges, links := [], [];
    if user.Some? && host.Some? && event.eventType in LOGON_EVENT_TYPES {
      edges := [BuildEdge(es[user.value], es[host.value], AuthenticatedTo, event, map["logon_type" := event.logonType])];
      links := [Link(user.value, AuthenticatedTo, host.value)];
    }
  }

  method LoginEdges(event: Event) returns (edges: seq<Edge>, ghost links: seq<Link>)
    ensures Emits(event, edges, links, 1)
  {
    var es := event.entities;
    var user, host := Find(es, User), Find(es, Host);
    edges, links := [], [];
    if user.Some? && host.Some? {
      edges := [BuildEdge(es[user.value], es[host.value], LoggedInTo, event)];
      links := [Link(user.value, LoggedInTo, host.value)];
    }
  }

  method ProcessEdges(event: Event) returns (edges: seq<Edge>, ghost links: seq<Link>)
    ensures Emits(event, edges, links, 2)
  {
    hide All, Find;
    var es := event.entities;
    var processes, host := All(es, Process), Find(es, Host);
    EndsOfAll(es, Process);
    edges, links := [], [];
    if |processes| >= 2 {
      var child, parent := processes[0], processes[1];
      edges := [BuildEdge(es[parent], es[child], Spawned, event, map["command_line" := event.commandLine])];
      links := [Link(parent, Spawned, child)];
    } else if |processes| == 1 && host.Some? {
      edges := [BuildEdge(es[host.value], es[processes[0]], Executed, event)];
      links := [Link(host.value, Executed, processes[0])];
    }
  }

  /** The first of the processes, if there are any. */
  function Primary(es: seq<Entity>): (r: Option<nat>)
    ensures r.Some? ==> First(es, Process, r.value)
    ensures r.None? ==> Absent(es, Process)
  {
    EndsOfAll(es, Process);
    var processes := All(es, Process);
    if processes == [] then None else Some(processes[0])
  }

  method ProcessAccessEdges(event: Event) returns (edges: seq<Edge>, ghost links: seq<Link>)
    ensures Emits(event, edges, links, 3)
  {
    hide All, Primary, Related, Place;
    var es := event.entities;
    var process, files := Primary(es), All(es, File);
    ActorsFound(es);
    forall l: Link { AccessPlace(event, l); }
    edges, links := [], [];
    if process.Some? && event.eventType == "process_access" {
      edges, links := OneForEach(event, process.value, Accessed, File);
      FanFills(event, 3, process.value, Accessed, File, files);
    }
  }

  method FileEdges(event: Event) returns (edges: seq<Edge>, ghost links: seq<Link>)
    ensures Emits(event, edges, links, 4)
  {
    hide All, Find, Primary, Or, Preferred, Absent, First, Related, Place, EdgesFor;
    var es := event.entities;
    var actor := Or(Primary(es), Find(es, Host));
    ActorsFound(es);
    forall l { FilePlace(event, l); }
    edges, links := [], [];
    if actor.Some? && event.eventType in {"file_create"} {
      edges, links := OneForEach(event, actor.value, Created, File);
      FanFills(event, 4, actor.value, Created, File, All(es, File));
    } else if actor.Some? && event.eventType in {"file_modify", "file_delete"} {
      edges, links := OneForEach(event, actor.value, Modified, File);
      FanFills(event, 4, actor.value, Modified, File, All(es, File));
    } else {
      NoEdges(event);
    }
  }

  lemma NoEdges(event: Event)
    ensures EdgesFor(event, [], [])
  {
  }

  method ConnectionEdges(event: Event) returns (edges: seq<Edge>, ghost links: seq<Link>)
    ensures Emits(event, edges, links, 5)
  {
    hide All, Find;
    var es := event.entities;
    var ips, host := All(es, Ip), Find(es, Host);
    var port := map["dst_port" := event.dstPort];
    EndsOfAll(es, Ip);
    edges, links := [], [];
    if |ips| == 2 {
      edges := [BuildEdge(es[ips[0]], es[ips[1]], ConnectedTo, event, port)];
      links := [Link(ips[0], ConnectedTo, ips[1])];
    } else if |ips| == 1 && host.Some? && event.eventType in NETWORK_EVENT_TYPES {
      edges := [BuildEdge(es[host.value], es[ips[0]], ConnectedTo, event, port)];
      links := [Link(host.value, ConnectedTo, ips[0])];
    }
  }

  method ResolutionEdges(event: Event) returns (edges: seq<Edge>, ghost links: seq<Link>)
    ensures Emits(event, edges, links, 6)
  {
    hide All, Find;
    var es := event.entities;
    var ips, domain := All(es, Ip), Find(es, Domain);
    EndsOfAll(es, Ip);
    edges, links := [], [];
    if domain.Some? && ips != [] {
      edges := [BuildEdge(es[domain.value], es[ips[|ips| - 1]], ResolvedTo, event)];
      links := [Link(domain.value, ResolvedTo, ips[|ips| - 1])];
    }
  }

  method UrlEdges(event: Event) returns (edges: seq<Edge>, ghost links: seq<Link>)
    ensures Emits(event, edges, links, 7)
  {
    hide Find, Primary, Preferred, Absent, Related, Place;
    var es := event.entities;
    var url, process := Find(es, Url), Primary(es);
    var actor := Or(process, Or(Find(es, User), Find(es, Host)));
    ActorsFound(es);
    FirstIsOne(es);
    forall l { UrlPlace(event, l); }
    edges, links := [], [];
    if url.Some? && actor.Some? {
      var relation := if process.Some? then Downloaded else Accessed;
      edges := [BuildEdge(es[actor.value], es[url.value], relation, event)];
      links := [Link(actor.value, relation, url.value)];
    }
  }

  method RegistryEdges(event: Event) returns (edges: seq<Edge>, ghost links: seq<Link>)
    ensures Emits(event, edges, links, 8)
  {
    hide Find, Primary;
    var es := event.entities;
    var registry, process := Find(es, RegistryKey), Primary(es);
    edges, links := [], [];
    if registry.Some? && process.Some? {
      edges := [BuildEdge(es[process.value], es[registry.value], Modified, event)];
      links := [Link(process.value, Modified, registry.value)];
    }
  }

  method EmailEdges(event: Event) returns (edges: seq<Edge>, ghost links: seq<Link>)
    ensures Emits(event, edges, links, 9)
  {
    hide Find;
    var es := event.entities;
    var email, user := Find(es, Email), Find(es, User);
    edges, links := [], [];
    if email.Some? && user.Some? {
      edges := [BuildEdge(es[email.value], es[user.value], Emailed, event)];
      links := [Link(email.value, Emailed, user.value)];
    }
  }

  method HashEdges(event: Event) returns (edges: seq<Edge>, ghost links: seq<Link>)
    ensures Emits(event, edges, links, 10)
  {
    hide Find, Primary;
    var es := event.entities;
    var hash, process := Find(es, Hash), Primary(es);
    edges, links := [], [];
    if hash.Some? && process.Some? {
      edges := [BuildEdge(es[process.value], es[hash.value], Created, event)];
      links := [Link(process.value, Created, hash.value)];
    }
  }

  method TechniqueEdges(event: Event) returns (edges: seq<Edge>, ghost links: seq<Link>)
    ensures Emits(event, edges, links, 11)
  {
    hide All, Find, Primary, Or, Subject, Related, Place;
    var es := event.entities;
    var subject := Or(Or(Primary(es), Find(es, Host)), Find(es, User));
    ActorsFound(es);
    forall l { TechniquePlace(event, l); }
    edges, links := [], [];
    if subject.Some? {
      edges, links := OneForEach(event, subject.value, MappedToTechnique, Technique);
      FanFills(event, 11, subject.value, MappedToTechnique, Technique, All(es, Technique));
    }
  }

  /** The loops: one edge from `src` to each entity of a kind, in order. */
  method OneForEach(event: Event, src: nat, r: Relation, kind: EntityKind) returns (edges: seq<Edge>, ghost links: seq<Link>)
    requires src < |event.entities| && Properties(event, r) == map[]
    ensures links == Fan(src, r, All(event.entities, kind)) && EdgesFor(event, edges, links)
  {
    hide BuildEdge, All;
    var es := event.entities;
    var targets := All(es, kind);
    edges, links := [], Fan(src, r, targets);
    for k := 0 to |targets|
      invariant |edges| == k && forall i | 0 <= i < k :: IsEdgeOf(event, edges[i], links[i])
    {
      assert targets[k] in targets;
      EdgeOfLink(event, src, r, targets[k]);
      edges := edges + [BuildEdge(es[src], es[targets[k]], r, event)];
    }
  }

  lemma EdgeOfLink(event: Event, src: nat, r: Relation, dst: nat)
    requires src < |event.entities| && dst < |event.entities|
    ensures IsEdgeOf(event, BuildEdge(event.entities[src], event.entities[dst], r, event, Properties(event, r)), Link(src, r, dst))
  {
  }

  lemma FanMembers(src: nat, r: Relation, targets: seq<nat>)
    ensures forall l :: l in Fan(src, r, targets) <==> l.src == src && l.relation == r && l.dst in targets
    ensures |Fan(src, r, targets)| == |targets|
    ensures forall i | 0 <= i < |targets| :: Fan(src, r, targets)[i].dst == targets[i]
  {
    var fan := Fan(src, r, targets);
    forall l: Link | l.src == src && l.relation == r && l.dst in targets ensures l in fan {
      var i :| 0 <= i < |targets| && targets[i] == l.dst;
      assert fan[i] == l;
    }
  }

  /** A loop over all targets fills a place at which only its source and its relation occur. */
  lemma FanFills(event: Event, place: nat, src: nat, r: Relation, kind: EntityKind, targets: seq<nat>)
    requires targets == All(event.entities, kind)
    requires forall l ::
      (Related(event, l) && Place(event, l) == place) <==> (l.src == src && l.relation == r && Is(event.entities, kind, l.dst))
    ensures Fills(event, place, Fan(src, r, targets))
  {
    hide All, Related, Place, Fan, Is;
    FanMembers(src, r, targets);
  }

  lemma FilePlace(event: Event, l: Link)
    ensures Related(event, l) && Place(event, l) == 4
      <==> Is(event.entities, File, l.dst) && Preferred(event.entities, Process, Host, l.src)
           && ((l.relation == Created && event.eventType in {"file_create"})
               || (l.relation == Modified && event.eventType in {"file_modify", "file_delete"}))
  {
    hide Preferred;
  }

  lemma AccessPlace(event: Event, l: Link)
    ensures Related(event, l) && Place(event, l) == 3
      <==> Is(event.entities, File, l.dst) && First(event.entities, Process, l.src)
           && l.relation == Accessed && event.eventType == "process_access"
  {
    hide Preferred, Absent;
  }

  lemma UrlPlace(event: Event, l: Link)
    ensures Related(event, l) && Place(event, l) == 7
      <==> First(event.entities, Url, l.dst)
           && ((l.relation == Downloaded && First(event.entities, Process, l.src))
               || (l.relation == Accessed && Absent(event.entities, Process)
                   && Preferred(event.entities, User, Host, l.src)))
  {
    hide Preferred, Absent;
  }

  lemma TechniquePlace(event: Event, l: Link)
    ensures Related(event, l) && Place(event, l) == 11
      <==> l.relation == MappedToTechnique && Subject(event.entities, l.src) && Is(event.entities, Technique, l.dst)
  {
    hide Subject;
  }

  lemma EndsOfAll(es: seq<Entity>, kind: EntityKind)
    ensures var r := All(es, kind);
      && (forall i | i in r :: i < |es|)
      && (r == [] ==> Absent(es, kind))
      && (|r| == 1 ==> Only(es, kind, r[0]))
      && (r != [] ==> First(es, kind, r[0]) && Last(es, kind, r[|r| - 1]))
      && (|r| >= 2 ==> FirstTwo(es, kind, r[0], r[1]))
  {
    hide All, Is, Increasing;
    var r := All(es, kind);
    assert forall i: nat | i in r :: Is(es, kind, i);
    if r != [] {
      NoneBetween(es, kind, r, 0);
      NoneBetween(es, kind, r, |r| - 1);
      assert r[0] in r && r[|r| - 1] in r;
    }
    if |r| >= 2 {
      NoneBetween(es, kind, r, 1);
      assert r[1] in r;
      assert r[0] < r[1];
    }
    InRange(es, kind);
  }

  lemma InRange(es: seq<Entity>, kind: EntityKind)
    ensures forall i: nat | Is(es, kind, i) :: i < |es|
  {
  }

  /** Around element `k` of the positions of a kind, no position is missing. */
  lemma NoneBetween(es: seq<Entity>, kind: EntityKind, r: seq<nat>, k: nat)
    requires Increasing(r) && k < |r| && forall i: nat :: i in r <==> Is(es, kind, i)
    ensures k == 0 ==> forall h: nat | h < r[k] :: !Is(es, kind, h)
    ensures k == |r| - 1 ==> forall h: nat | h > r[k] :: !Is(es, kind, h)
    ensures k > 0 ==> r[k - 1] < r[k] && forall h: nat | r[k - 1] < h < r[k] :: !Is(es, kind, h)
  {
    hide Is;
    forall h: nat | Is(es, kind, h)
      ensures (k == 0 ==> h >= r[k]) && (k == |r| - 1 ==> h <= r[k]) && (k > 0 ==> h <= r[k - 1] || h >= r[k])
    {
      var i :| 0 <= i < |r| && r[i] == h;
    }
  }

  /** What the finders answer is what the relations speak of. */
  lemma ActorsFound(es: seq<Entity>)
    ensures var actor := Or(Primary(es), Find(es, Host));
      (forall i: nat :: Preferred(es, Process, Host, i) <==> actor == Some(i)) && (actor.Some? ==> actor.value < |es|)
    ensures var actor := Or(Find(es, User), Find(es, Host));
      (forall i: nat :: Preferred(es, User, Host, i) <==> actor == Some(i)) && (actor.Some? ==> actor.value < |es|)
    ensures var subject := Or(Or(Primary(es), Find(es, Host)), Find(es, User));
      (forall i: nat :: Subject(es, i) <==> subject == Some(i)) && (subject.Some? ==> subject.value < |es|)
    ensures forall i: nat :: First(es, Process, i) <==> Primary(es) == Some(i)
    ensures Absent(es, Process) <==> Primary(es) == None
  {
    hide Find, Primary, Absent, First;
    FirstIsOne(es);
  }

  lemma FirstIsOne(es: seq<Entity>)
    ensures forall kind, i: nat | First(es, kind, i) :: !Absent(es, kind) && i < |es|
    ensures forall kind, i: nat, j: nat | First(es, kind, i) && First(es, kind, j) :: i == j
  {
  }

  /** The branches and loops in their order, each appending the edges of its place. */
  method DeriveGraphUpdates(event: Event) returns (nodes: seq<Node>, edges: seq<Edge>)
    ensures Derived(event, nodes, edges)
  {
    hide Lists, EdgesFor, Fills;
    var es := event.entities;
    nodes := seq(|es|, i requires 0 <= i < |es| => BuildNode(es[i], event));
    var more;
    ghost var added;
    edges, added := AuthenticationEdges(event);
    ghost var links := added;
    StartsAt(event, edges, links);
    more, added := LoginEdges(event);
    NextPlace(event, edges, links, 1, more, added);
    edges, links := edges + more, links + added;
    more, added := ProcessEdges(event);
    NextPlace(event, edges, links, 2, more, added);
    edges, links := edges + more, links + added;
    more, added := ProcessAccessEdges(event);
    NextPlace(event, edges, links, 3, more, added);
    edges, links := edges + more, links + added;
    more, added := FileEdges(event);
    NextPlace(event, edges, links, 4, more, added);
    edges, links := edges + more, links + added;
    more, added := ConnectionEdges(event);
    NextPlace(event, edges, links, 5, more, added);
    edges, links := edges + more, links + added;
    more, added := ResolutionEdges(event);
    NextPlace(event, edges, links, 6, more, added);
    edges, links := edges + more, links + added;
    more, added := UrlEdges(event);
    NextPlace(event, edges, links, 7, more, added);
    edges, links := edges + more, links + added;
    more, added := RegistryEdges(event);
    NextPlace(event, edges, links, 8, more, added);
    edges, links := edges + more, links + added;
    more, added := EmailEdges(event);
    NextPlace(event, edges, links, 9, more, added);
    edges, links := edges + more, links + added;
    more, added := HashEdges(event);
    NextPlace(event, edges, links, 10, more, added);
    edges, links := edges + more, links + added;
    more, added := TechniqueEdges(event);
    NextPlace(event, edges, links, 11, more, added);
    edges, links := edges + more, links + added;
  }

  lemma StartsAt(event: Event, edges: seq<Edge>, links: seq<Link>)
    requires Emits(event, edges, links, 0)
    ensures Upto(event, edges, links, 1)
  {
    hide Lists, Fills, EdgesFor;
    NothingUpto(event);
    NextPlace(event, [], [], 0, edges, links);
    assert [] + edges == edges && [] + links == links;
  }

  // What the updates of an event mean.

  /** The updates are determined: two lists of the related links in order are the same. */
  lemma {:induction false} ListsOnce(event: Event, a: seq<Link>, b: seq<Link>)
    requires Ordered(event, a) && Ordered(event, b) && forall l :: l in a <==> l in b
    ensures a == b
    decreases |a|
  {
    assert (a != [] ==> a[0] in a) && (b != [] ==> b[0] in b);
    if a != [] && b != [] {
      hide Place;
      var m, n := |a| - 1, |b| - 1;
      assert a[m] in a && a[m] in b && b[n] in b && b[n] in a;
      LastOnce(event, a, b);
      WithoutLast(event, a);
      WithoutLast(event, b);
      ListsOnce(event, a[..m], b[..n]);
      assert a == a[..m] + [a[m]] && b == b[..n] + [b[n]];
    }
  }

  lemma LastOnce(event: Event, a: seq<Link>, b: seq<Link>)
    requires Ordered(event, a) && Ordered(event, b) && a != [] && b != []
    requires a[|a| - 1] in b && b[|b| - 1] in a
    ensures a[|a| - 1] == b[|b| - 1]
  {
    hide Place;
    var i :| 0 <= i < |a| && a[i] == b[|b| - 1];
    var j :| 0 <= j < |b| && b[j] == a[|a| - 1];
  }

  lemma WithoutLast(event: Event, a: seq<Link>)
    requires Ordered(event, a) && a != []
    ensures var m := |a| - 1; Ordered(event, a[..m]) && forall l :: l in a[..m] <==> l in a && l != a[m]
  {
    hide Place;
    var m := |a| - 1;
    assert a == a[..m] + [a[m]];
    assert forall i | 0 <= i < m :: Before(event, a[i], a[m]);
  }

  lemma DerivedOnce(event: Event, nodes: seq<Node>, edges: seq<Edge>, nodes': seq<Node>, edges': seq<Edge>)
    requires Derived(event, nodes, edges) && Derived(event, nodes', edges')
    ensures nodes == nodes' && edges == edges'
  {
    var links :| Lists(event, links, PLACES) && EdgesFor(event, edges, links);
    var links' :| Lists(event, links', PLACES) && EdgesFor(event, edges', links');
    hide Related, Place;
    ListsOnce(event, links, links');
  }

  /** Which kinds of entity an edge of a type, by its name, joins. */
  predicate Joins(name: string, src: EntityKind, dst: EntityKind) {
    || (name in {"authenticated_to", "logged_in_to"} && src == User && dst == Host)
    || (name == "spawned" && src == Process && dst == Process)
    || (name == "executed" && src == Host && dst == Process)
    || (name in {"accessed", "created", "modified"} && src == Process && dst == File)
    || (name in {"created", "modified"} && src == Host && dst == File)
    || (name == "connected_to" && src in {Ip, Host} && dst == Ip)
    || (name == "resolved_to" && src == Domain && dst == Ip)
    || (name == "downloaded" && src == Process && dst == Url)
    || (name == "accessed" && src in {User, Host} && dst == Url)
    || (name == "modified" && src == Process && dst == RegistryKey)
    || (name == "emailed" && src == Email && dst == User)
    || (name == "created" && src == Process && dst == Hash)
    || (name == "mapped_to_technique" && src in {Process, Host, User} && dst == Technique)
  }

  lemma RelatedJoins(event: Event, l: Link)
    requires Related(event, l)
    ensures var es := event.entities;
      l.src < |es| && l.dst < |es| && Joins(RelationName(l.relation), es[l.src].kind, es[l.dst].kind)
  {
  }

  /** The two entities that an edge joins, and how. */
  ghost predicate JoinsEntities(e: Edge, es: seq<Entity>, l: Link) {
    && l.src < |es| && l.dst < |es|
    && e.src == es[l.src].id && e.dst == es[l.dst].id && e.kind == RelationName(l.relation)
    && Joins(e.kind, es[l.src].kind, es[l.dst].kind)
  }

  /** Every derived edge joins two entities of the event, of kinds that its relation may join. */
  lemma DerivedEdgesFit(event: Event, nodes: seq<Node>, edges: seq<Edge>, e: Edge)
    requires Derived(event, nodes, edges) && e in edges
    ensures exists l :: JoinsEntities(e, event.entities, l)
  {
    hide Related, Place, Joins, JoinsEntities, IsEdgeOf, Ordered;
    var links :| Lists(event, links, PLACES) && EdgesFor(event, edges, links);
    var i :| 0 <= i < |edges| && edges[i] == e;
    assert IsEdgeOf(event, edges[i], links[i]) && links[i] in links;
    LinkJoins(event, e, links[i]);
  }

  lemma LinkJoins(event: Event, e: Edge, l: Link)
    requires Related(event, l) && IsEdgeOf(event, e, l)
    ensures JoinsEntities(e, event.entities, l)
  {
    hide Related, Joins;
    RelatedJoins(event, l);
  }

  /** Every related pair of entities has its edge. */
  lemma EveryRelationDerived(event: Event, nodes: seq<Node>, edges: seq<Edge>, l: Link)
    requires Derived(event, nodes, edges) && Related(event, l)
    ensures exists e | e in edges :: IsEdgeOf(event, e, l)
  {
    PlaceInRange(event, l);
    hide Related, Place;
    var links :| Lists(event, links, PLACES) && EdgesFor(event, edges, links);
    var i :| 0 <= i < |links| && links[i] == l;
    assert edges[i] in edges;
  }

  lemma PlaceInRange(event: Event, l: Link)
    ensures Place(event, l) < PLACES
  {
  }

  /** Different relations have different names. */
  lemma NamesTellApart(r: Relation, s: Relation)
    ensures RelationName(r) == RelationName(s) ==> r == s
  {
  }

  /** The name of each kind of entity stands for that kind alone. */
  lemma KindsByName(kind: EntityKind)
    ensures KindName(kind) == "User" <==> kind == User
    ensures KindName(kind) == "Host" <==> kind == Host
    ensures KindName(kind) == "Process" <==> kind == Process
    ensures KindName(kind) == "File" <==> kind == File
    ensures KindName(kind) == "IP" <==> kind == Ip
    ensures KindName(kind) == "Domain" <==> kind == Domain
    ensures KindName(kind) == "URL" <==> kind == Url
    ensures KindName(kind) == "Hash" <==> kind == Hash
    ensures KindName(kind) == "RegistryKey" <==> kind == RegistryKey
    ensures KindName(kind) == "Email" <==> kind == Email
    ensures KindName(kind) == "AttackTechnique" <==> kind == Technique
  {
  }

  /** No kind of edge holds a bar, so only ids can make an edge key ambiguous. */
  lemma NamesHaveNoBar(r: Relation)
    ensures '|' !in RelationName(r)
  {
  }

  lemma OneNodeEach(event: Event, nodes: seq<Node>, edges: seq<Edge>)
    requires Derived(event, nodes, edges)
    ensures |nodes| == |event.entities|
  {
  }

  // Runs of events.

  /** One event with its updates and its observation. */
  datatype Applied = Applied(event: Event, nodes: seq<Node>, edges: seq<Edge>, observation: string)

  /** What the updates of one event do to the two tables: its nodes first, then its edges. */
  function Apply(nodes: map<Id, Node>, edges: map<string, Edge>, x: Applied): (map<Id, Node>, map<string, Edge>) {
    (UpsertNodes(nodes, x.nodes, Some(x.observation)), UpsertEdges(edges, x.edges, Some(x.observation)))
  }

  function ApplyAll(run: seq<Applied>): (map<Id, Node>, map<string, Edge>) {
    if run == [] then (map[], map[])
    else
      var n := |run| - 1;
      var (nodes, edges) := ApplyAll(run[..n]);
      Apply(nodes, edges, run[n])
  }

  /**
   With the nodes written before the edges, no write of an event leaves an
   edge without its ends, not even for a reader between two writes.
   */
  lemma EveryWriteKeepsEnds(nodes: map<Id, Node>, edges: map<string, Edge>, x: Applied, i: nat, j: nat)
    requires NoDangling(nodes, edges) && Derived(x.event, x.nodes, x.edges)
    requires i <= |x.nodes| && j <= |x.edges|
    ensures NoDangling(UpsertNodes(nodes, x.nodes[..i], Some(x.observation)), edges)
    ensures NoDangling(UpsertNodes(nodes, x.nodes, Some(x.observation)),
                       UpsertEdges(edges, x.edges[..j], Some(x.observation)))
  {
    hide Derived, UpsertNodes, UpsertEdges;
    UpsertNodesIds(nodes, x.nodes, Some(x.observation));
    UpsertNodesIds(nodes, x.nodes[..i], Some(x.observation));
    var ids := nodes.Keys + set u | u in x.nodes :: u.id;
    forall e | e in x.edges ensures e.src in ids && e.dst in ids {
      EndsAreNodes(x, e);
    }
    UpsertEdgesEnds(edges, x.edges[..j], Some(x.observation), ids);
  }

  lemma EndsAreNodes(x: Applied, e: Edge)
    requires Derived(x.event, x.nodes, x.edges) && e in x.edges
    ensures (exists u | u in x.nodes :: u.id == e.src) && (exists u | u in x.nodes :: u.id == e.dst)
  {
    DerivedEdgesFit(x.event, x.nodes, x.edges, e);
    hide Lists, EdgesFor, Joins;
    var l :| JoinsEntities(e, x.event.entities, l);
    assert x.nodes[l.src] in x.nodes && x.nodes[l.dst] in x.nodes;
  }

  lemma ApplyKeepsEnds(nodes: map<Id, Node>, edges: map<string, Edge>, x: Applied)
    requires NoDangling(nodes, edges) && Derived(x.event, x.nodes, x.edges)
    ensures var (nodes', edges') := Apply(nodes, edges, x); NoDangling(nodes', edges')
  {
    hide Derived, NoDangling, UpsertNodes, UpsertEdges;
    assert x.edges[..|x.edges|] == x.edges;
    EveryWriteKeepsEnds(nodes, edges, x, 0, |x.edges|);
  }

  /** A graph that was built only from events never holds an edge with a missing endpoint. */
  lemma {:induction false} NeverDangling(run: seq<Applied>)
    requires forall x | x in run :: Derived(x.event, x.nodes, x.edges)
    ensures var (nodes, edges) := ApplyAll(run); NoDangling(nodes, edges)
  {
    if run != [] {
      hide Derived, NoDangling, Apply;
      var n := |run| - 1;
      NeverDangling(run[..n]);
      var (nodes, edges) := ApplyAll(run[..n]);
      ApplyKeepsEnds(nodes, edges, run[n]);
    } else {
      assert NoDangling(map[], map[]);
    }
  }
}
