/** Turning a runtime's container into a service: internal/adapters/docker/mapping.go. */
module Mappings {
  import opened Ordering
  import opened Domain
  import opened Snapshots
  import opened Statuses
  import opened Numbers

  // ----- ports -------------------------------------------------------------------------

  /** A port as the runtime reports it: once for every host address it is bound to. */
  datatype Binding = Binding(address: string, container: int, host: int, protocol: string)

  function ToPort(binding: Binding): Port {
    Port(binding.host, binding.container, binding.protocol)
  }

  function ComparePorts(a: Port, b: Port): int {
    Or(CompareInts(a.container, b.container), CompareInts(a.host, b.host), CompareStrings(a.protocol, b.protocol))
  }

  lemma ComparePortsFlips(a: Port, b: Port)
    ensures ComparePorts(a, b) == -ComparePorts(b, a)
    ensures ComparePorts(a, b) == 0 <==> a == b
  {
    CompareStringsFlips(a.protocol, b.protocol);
  }

  lemma PortsAreOrdered()
    ensures TotalPreorder(ComparePorts)
  {
    forall a, b ensures ComparePorts(a, b) < 0 <==> ComparePorts(b, a) > 0 {
      ComparePortsFlips(a, b);
    }
    forall a, b, c | ComparePorts(a, b) <= 0 && ComparePorts(b, c) <= 0 ensures ComparePorts(a, c) <= 0 {
      if a.container == c.container && a.host == c.host && CompareStrings(b.protocol, c.protocol) <= 0 {
        if CompareStrings(a.protocol, b.protocol) <= 0 {
          CompareStringsTransitive(a.protocol, b.protocol, c.protocol);
        }
      }
    }
  }

  /** The ports a list of bindings is about. */
  function PortSet(bindings: seq<Binding>): set<Port> {
    set b | b in bindings :: ToPort(b)
  }

  /** The ports of a set, each once, in order. */
  ghost predicate Lists(ports: seq<Port>, all: set<Port>) {
    StrictlySorted(ports, ComparePorts) && forall p :: p in ports <==> p in all
  }

  /** The ports of some bindings, each at its first appearance. */
  function Distinct(bindings: seq<Binding>): (mapped: seq<Port>)
    ensures forall p :: p in mapped <==> p in PortSet(bindings)
    ensures forall i, j :: 0 <= i < j < |mapped| ==> mapped[i] != mapped[j]
  {
    if bindings == [] then []
    else
      var init, p := bindings[..|bindings| - 1], ToPort(bindings[|bindings| - 1]);
      assert PortSet(bindings) == PortSet(init) + {p} by { assert bindings == init + [bindings[|bindings| - 1]]; }
      if p in Distinct(init) then Distinct(init) else Distinct(init) + [p]
  }

  function Ports(bindings: seq<Binding>): seq<Port> {
    Sort(Distinct(bindings), ComparePorts)
  }

  lemma PortsListThem(bindings: seq<Binding>)
    ensures Lists(Ports(bindings), PortSet(bindings))
  {
    var mapped := Distinct(bindings);
    PortsAreOrdered();
    forall i, j | 0 <= i < j < |mapped| ensures ComparePorts(mapped[i], mapped[j]) != 0 {
      ComparePortsFlips(mapped[i], mapped[j]);
    }
    SortSortsStrictly(mapped, ComparePorts);
    SameMembers(Ports(bindings), mapped);
  }

  lemma ListIsUnique(a: seq<Port>, b: seq<Port>, all: set<Port>)
    requires Lists(a, all) && Lists(b, all)
    ensures a == b
  {
    PortsAreOrdered();
    StrictlySortedIsUnique(a, b, ComparePorts);
  }

  /** Ports have a canonical form: the order and the duplicates of the bindings do not show,
      and nothing else is lost. */
  lemma PortsAreCanonical(a: seq<Binding>, b: seq<Binding>)
    ensures Ports(a) == Ports(b) <==> PortSet(a) == PortSet(b)
  {
    PortsListThem(a);
    PortsListThem(b);
    if PortSet(a) == PortSet(b) {
      ListIsUnique(Ports(a), Ports(b), PortSet(a));
    }
  }

  method ToPorts(bindings: seq<Binding>) returns (ports: seq<Port>)
    ensures ports == Ports(bindings)
    ensures StrictlySorted(ports, ComparePorts)
    ensures forall p :: p in ports <==> p in PortSet(bindings)
  {
    PortsListThem(bindings);
    if |bindings| == 0 {
      return [];
    }
    var mapped := FirstAppearances(bindings);
    ports := SortPorts(mapped);
    SortedDistinctLists(ports, mapped, PortSet(bindings));
    ListIsUnique(ports, Ports(bindings), PortSet(bindings));
  }

  method FirstAppearances(bindings: seq<Binding>) returns (mapped: seq<Port>)
    ensures mapped == Distinct(bindings)
  {
    var seen: set<Port> := {};
    mapped := [];
    for i := 0 to |bindings|
      invariant mapped == Distinct(bindings[..i])
      invariant forall p :: p in seen <==> p in mapped
    {
      var p := ToPort(bindings[i]);
      assert bindings[..i + 1][..i] == bindings[..i];
      if p !in seen {
        seen := seen + {p};
        mapped := mapped + [p];
      }
    }
    assert bindings[..|bindings|] == bindings;
  }

  method SortPorts(ports: seq<Port>) returns (sorted: seq<Port>)
    ensures Sorted(sorted, ComparePorts) && multiset(sorted) == multiset(ports)
  {
    var slice := new Port[|ports|](i requires 0 <= i < |ports| => ports[i]);
    assert slice[..] == ports;
    PortsAreOrdered();
    SortFunc(slice, ComparePorts);
    sorted := slice[..];
  }

  lemma SortedDistinctLists(sorted: seq<Port>, mapped: seq<Port>, all: set<Port>)
    requires Sorted(sorted, ComparePorts) && multiset(sorted) == multiset(mapped)
    requires forall i, j :: 0 <= i < j < |mapped| ==> mapped[i] != mapped[j]
    requires forall p :: p in mapped <==> p in all
    ensures Lists(sorted, all)
  {
    PortsAreOrdered();
    forall i, j | 0 <= i < j < |mapped| ensures ComparePorts(mapped[i], mapped[j]) != 0 {
      ComparePortsFlips(mapped[i], mapped[j]);
    }
    SortedPermutationIsStrict(sorted, mapped, ComparePorts);
    SameMembers(sorted, mapped);
  }

  // ----- the replica number --------------------------------------------------------------

  function ContainerNumber(value: string): (number: int)
    ensures 1 <= number <= MAX_INT
  {
    var number := Atoi(value);
    if number.None? || number.value < 1 then 1 else number.value
  }

  /** A label written by Compose is read back as the number it was written for. */
  lemma {:induction false} NumberRoundTrip(n: nat)
    ensures ContainerNumber(Decimal(n)) == if 1 <= n <= MAX_INT then n else 1
  {
    DecimalReadsBack(n);
  }

  /** Exactly the labels that write a number above 1, within 64 bits, are read as it; every other
      label, and none at all, is read as 1. */
  lemma NumberIsReadExactly(value: string, n: nat)
    requires 1 < n
    ensures ContainerNumber(value) == n <==> Writes(value, n) && n <= MAX_INT
  {
    if n <= MAX_INT { WritingIsReading(value, n); }
  }

  // ----- the service ---------------------------------------------------------------------

  const LABEL_SERVICE := "com.docker.compose.service"
  const LABEL_NUMBER := "com.docker.compose.container-number"
  const LABEL_TITLE := "org.opencontainers.image.title"
  const LABEL_DESCRIPTION := "org.opencontainers.image.description"

  /** A container as the runtime lists it. The routing labels are already resolved into `url`. */
  datatype Container = Container(
    id: string,
    names: seq<string>,
    image: string,
    labels: map<string, string>,
    url: string,
    state: string,
    status: string,
    ports: seq<Binding>,
    created: int)

  function Label(labels: map<string, string>, key: string): string {
    if key in labels then labels[key] else ""
  }

  function ContainerName(names: seq<string>): string {
    if names == [] then ""
    else if StartsWith(names[0], "/") then names[0][1..]
    else names[0]
  }

  function ToState(state: string): State {
    match state
    case "created" => Created
    case "running" => Running
    case "paused" => Paused
    case "restarting" => Restarting
    case "removing" => Removing
    case "exited" => Exited
    case "dead" => Dead
    case _ => Unknown
  }

  /** The runtime's word for a state; an unknown one has none. */
  function StateText(state: State): Option<string> {
    match state
    case Created => Some("created")
    case Running => Some("running")
    case Paused => Some("paused")
    case Restarting => Some("restarting")
    case Removing => Some("removing")
    case Exited => Some("exited")
    case Dead => Some("dead")
    case Unknown => None
  }

  /** A state goes by its word, and only a word that is no state's is unknown; and only running is
      online. */
  ghost predicate IsState(text: string, state: State) {
    && (if state.Unknown? then forall other :: StateText(other) != Some(text) else StateText(state) == Some(text))
    && (state.Online() <==> text == "running")
  }

  lemma StateIsRead(text: string)
    ensures IsState(text, ToState(text))
  {
  }

  function ServiceName(container: Container): string {
    if Label(container.labels, LABEL_SERVICE) == "" then ContainerName(container.names)
    else Label(container.labels, LABEL_SERVICE)
  }

  function ServiceOf(container: Container): Service {
    Service(
      containerID := container.id,
      name := ServiceName(container),
      number := ContainerNumber(Label(container.labels, LABEL_NUMBER)),
      containerName := ContainerName(container.names),
      image := container.image,
      title := Label(container.labels, LABEL_TITLE),
      description := Label(container.labels, LABEL_DESCRIPTION),
      url := container.url,
      state := ToState(container.state),
      status := container.status,
      statusKind := StatusKind(container.status),
      elapsed := StatusElapsed(container.status),
      health := HealthFromStatus(container.status),
      ports := Ports(container.ports),
      created := container.created)
  }

  function MapAll<A, B>(f: A -> B, s: seq<A>): (r: seq<B>)
    ensures |r| == |s|
    ensures forall i :: 0 <= i < |s| ==> r[i] == f(s[i])
  {
    if s == [] then [] else MapAll(f, s[..|s| - 1]) + [f(s[|s| - 1])]
  }

  lemma MapAllStep<A, B>(f: A -> B, s: seq<A>, i: nat)
    requires i < |s|
    ensures MapAll(f, s[..i + 1]) == MapAll(f, s[..i]) + [f(s[i])]
  {
    assert s[..i + 1][..i] == s[..i];
  }

  lemma {:induction false} MapAllDone<A, B>(f: A -> B, s: seq<A>)
    ensures MapAll(f, s[..|s|]) == MapAll(f, s)
  {
    assert s[..|s|] == s;
  }

  function ServicesOf(containers: seq<Container>): seq<Service> {
    MapAll(ServiceOf, containers)
  }

  method ToService(container: Container) returns (service: Service)
    ensures service == ServiceOf(container)
  {
    var name := Label(container.labels, LABEL_SERVICE);
    var containerName := ContainerName(container.names);
    if name == "" {
      name := containerName;
    }
    var ports := ToPorts(container.ports);
    service := Service(
      container.id, name, ContainerNumber(Label(container.labels, LABEL_NUMBER)), containerName, container.image,
      Label(container.labels, LABEL_TITLE), Label(container.labels, LABEL_DESCRIPTION), container.url,
      ToState(container.state), container.status, StatusKind(container.status), StatusElapsed(container.status),
      HealthFromStatus(container.status), ports, container.created);
  }

  /** A container is called by the first of its names, without the slash in front. */
  ghost predicate IsCalled(names: seq<string>, name: string) {
    if names == [] then name == ""
    else if name == names[0] then name == "" || name[0] != '/'
    else names[0] == "/" + name
  }

  lemma CalledWithoutSlash(names: seq<string>)
    ensures IsCalled(names, ContainerName(names))
  {
    if names != [] {
      var name := names[0];
      PrefixAt(name, "/", 0);
      if StartsWith(name, "/") {
        assert name == "/" + name[1..];
      } else {
        assert name == "" || name[0] != '/' by { if name != "" { assert name[..1] == [name[0]]; } }
      }
    }
  }

  /** The text of a label, or none. */
  predicate IsLabelled(labels: map<string, string>, key: string, text: string) {
    if key in labels then text == labels[key] else text == ""
  }

  /** A container goes by its service label, or by what it is called if that is missing or empty. */
  ghost predicate GoesBy(container: Container, service: Service) {
    && IsCalled(container.names, service.containerName)
    && if IsLabelled(container.labels, "com.docker.compose.service", "") then service.name == service.containerName
       else IsLabelled(container.labels, "com.docker.compose.service", service.name)
  }

  /** The number is the one its label writes, if that is above 1 and fits in 64 bits, and 1 otherwise. */
  ghost predicate IsNumbered(labels: map<string, string>, number: int) {
    var key := "com.docker.compose.container-number";
    && number >= 1
    && forall n: nat :: n > 1 ==>
         (number == n <==> key in labels && Writes(labels[key], n) && n <= 0x7FFF_FFFF_FFFF_FFFF)
  }

  lemma NumberIsLabelled(labels: map<string, string>)
    ensures IsNumbered(labels, ContainerNumber(Label(labels, LABEL_NUMBER)))
  {
    var value := Label(labels, LABEL_NUMBER);
    forall n: nat | n > 1
      ensures ContainerNumber(value) == n <==>
              LABEL_NUMBER in labels && Writes(labels[LABEL_NUMBER], n) && n <= 0x7FFF_FFFF_FFFF_FFFF
    {
      NumberIsReadExactly(value, n);
      if LABEL_NUMBER !in labels { assert Atoi("") == None; }
    }
  }

  predicate Ahead(p: Port, q: Port) {
    || p.container < q.container
    || (p.container == q.container && p.host < q.host)
    || (p.container == q.container && p.host == q.host && CompareStrings(p.protocol, q.protocol) < 0)
  }

  ghost predicate IsBound(p: Port, bindings: seq<Binding>) {
    exists b :: b in bindings && b.container == p.container && b.host == p.host && b.protocol == p.protocol
  }

  /** The ports bound, each once: by container port, then by the port published, then by protocol. */
  ghost predicate AreBound(ports: seq<Port>, bindings: seq<Binding>) {
    && (forall i, j :: 0 <= i < j < |ports| ==> Ahead(ports[i], ports[j]))
    && forall p :: p in ports <==> IsBound(p, bindings)
  }

  lemma PortsAreBound(bindings: seq<Binding>)
    ensures AreBound(Ports(bindings), bindings)
  {
    PortsListThem(bindings);
    forall p ensures p in PortSet(bindings) <==> IsBound(p, bindings) {
      if IsBound(p, bindings) {
        var b :| b in bindings && b.container == p.container && b.host == p.host && b.protocol == p.protocol;
        assert ToPort(b) == p;
      }
    }
  }

  /** Of a status in one of the usual shapes, a service has the duration, what is left without it, and
      the health its note tells of. */
  ghost predicate ReadsStatus(status: string, service: Service) {
    forall shape, d :: WellShaped(shape) && Proper(d) && status == StatusLine(shape, d) ==>
      ReadAs(shape, d, service.statusKind, service.elapsed, service.health)
  }

  /** What a service tells of its container. */
  ghost predicate Describes(service: Service, container: Container) {
    && service.containerID == container.id && GoesBy(container, service)
    && IsNumbered(container.labels, service.number)
    && service.image == container.image
    && IsLabelled(container.labels, "org.opencontainers.image.title", service.title)
    && IsLabelled(container.labels, "org.opencontainers.image.description", service.description)
    && service.url == container.url && service.created == container.created
    && IsState(container.state, service.state)
    && service.status == container.status && ReadsStatus(container.status, service)
    && AreBound(service.ports, container.ports)
  }

  lemma StatusIsReadFrom(container: Container)
    ensures ReadsStatus(container.status, ServiceOf(container))
  {
    var service := ServiceOf(container);
    forall shape, d | WellShaped(shape) && Proper(d) && container.status == StatusLine(shape, d)
      ensures ReadAs(shape, d, service.statusKind, service.elapsed, service.health)
    {
      StatusIsRead(shape, d);
    }
  }

  lemma ServiceGoesBy(container: Container)
    ensures GoesBy(container, ServiceOf(container))
  {
    CalledWithoutSlash(container.names);
  }

  lemma ServiceTells(container: Container)
    ensures Describes(ServiceOf(container), container)
  {
    ServiceGoesBy(container);
    NumberIsLabelled(container.labels);
    StateIsRead(container.state);
    StatusIsReadFrom(container);
    PortsAreBound(container.ports);
  }

  /** `Client.List`, once the runtime has answered. */
  method ListContainers(answer: Result<seq<Container>, string>) returns (services: Result<seq<Service>, string>)
    ensures answer.Failure? ==> services.Failure?
    ensures answer.Success? ==> services == Success(ServicesOf(answer.value))
    ensures answer.Success? ==>
              |services.value| == |answer.value|
              && forall i :: 0 <= i < |answer.value| ==> Describes(services.value[i], answer.value[i])
  {
    if answer.Failure? {
      return Failure("listing containers of project: " + answer.error);
    }
    var found := MapServices(answer.value);
    forall i | 0 <= i < |answer.value| ensures Describes(found[i], answer.value[i]) {
      ServiceTells(answer.value[i]);
    }
    services := Success(found);
  }

  method MapServices(containers: seq<Container>) returns (services: seq<Service>)
    ensures services == ServicesOf(containers)
  {
    services := [];
    for i := 0 to |containers|
      invariant services == MapAll(ServiceOf, containers[..i])
    {
      MapAllStep(ServiceOf, containers, i);
      var service := ToService(containers[i]);
      services := services + [service];
    }
    MapAllDone(ServiceOf, containers);
  }

  // ----- neither the clock nor the order of bindings is news --------------------------------

  /** One status in which only the time has moved on. */
  ghost predicate LaterStatus(before: string, after: string) {
    || before == after
    || exists shape, d, d' ::
         && WellShaped(shape) && Proper(d) && Proper(d')
         && before == StatusLine(shape, d) && after == StatusLine(shape, d')
  }

  /** One container to which nothing has happened, as the runtime may report it again. */
  ghost predicate Undisturbed(before: Container, after: Container) {
    && after == before.(status := after.status, ports := after.ports, created := after.created)
    && PortSet(before.ports) == PortSet(after.ports)
    && LaterStatus(before.status, after.status)
  }

  lemma LaterStatusReadsTheSame(before: string, after: string)
    requires LaterStatus(before, after)
    ensures StatusKind(before) == StatusKind(after)
    ensures HealthFromStatus(before) == HealthFromStatus(after)
  {
    if before != after {
      var shape, d, d' :|
        && WellShaped(shape) && Proper(d) && Proper(d')
        && before == StatusLine(shape, d) && after == StatusLine(shape, d');
      KindIgnoresTheClock(shape, d, d');
      HealthIgnoresTheClock(shape, d);
      HealthIgnoresTheClock(shape, d');
    }
  }

  /** What the page compares reads the same, but for the status line itself. */
  lemma UndisturbedReadsTheSame(before: Container, after: Container)
    requires Undisturbed(before, after)
    ensures StatusKind(before.status) == StatusKind(after.status)
    ensures HealthFromStatus(before.status) == HealthFromStatus(after.status)
    ensures Ports(before.ports) == Ports(after.ports)
  {
    LaterStatusReadsTheSame(before.status, after.status);
    PortsAreCanonical(before.ports, after.ports);
  }

  /** Such a container is not notable, and its row changes only if its status reads differently. */
  lemma UndisturbedIsNotNotable(before: Container, after: Container)
    requires Undisturbed(before, after)
    ensures !Notable(ServiceOf(before), ServiceOf(after))
    ensures Changed(ServiceOf(before), ServiceOf(after)) <==> before.status != after.status
  {
    UndisturbedReadsTheSame(before, after);
    var x, y := ServiceOf(before), ServiceOf(after);
    assert y == x.(status := y.status, elapsed := y.elapsed, created := y.created);
    OnlyTimeDiffers(x, y);
  }

  lemma OnlyTimeDiffers(x: Service, y: Service)
    requires y == x.(status := y.status, elapsed := y.elapsed, created := y.created)
    ensures !Notable(x, y)
    ensures Changed(x, y) <==> x.status != y.status
  {
  }

  /** The runtime reports the same containers, in whatever order, and none was disturbed. */
  ghost predicate NothingHappened(before: seq<Container>, after: seq<Container>) {
    && ListedOnce(before) && ListedOnce(after) && SameIDs(before, after)
    && (forall a, b :: a in before && b in after && a.id == b.id ==> Undisturbed(a, b))
  }

  ghost predicate ListedOnce(containers: seq<Container>) {
    forall i, j :: 0 <= i < j < |containers| ==> containers[i].id != containers[j].id
  }

  ghost predicate Has(containers: seq<Container>, id: string) {
    exists c :: c in containers && c.id == id
  }

  ghost predicate SameIDs(before: seq<Container>, after: seq<Container>) {
    forall id :: Has(before, id) <==> Has(after, id)
  }

  lemma StillListedOnce(before: seq<Container>, after: seq<Container>)
    requires ListedOnce(before) && multiset(after) == multiset(before)
    ensures ListedOnce(after)
  {
    SameMembers(after, before);
    forall i, j | 0 <= i < j < |after| ensures after[i].id != after[j].id {
      if after[i].id == after[j].id {
        assert after[i] in before && after[j] in before;
        SameIDSameContainer(before, after[i], after[j]);
        var k :| 0 <= k < |before| && before[k] == after[i];
        OccursOnce(before, k);
        OccursTwice(after, i, j);
      }
    }
  }

  /** The same containers listed in another order are such a report. */
  lemma NothingHappensByReordering(before: seq<Container>, after: seq<Container>)
    requires ListedOnce(before) && multiset(after) == multiset(before)
    ensures NothingHappened(before, after) && SameStatuses(before, after)
  {
    StillListedOnce(before, after);
    SameMembers(after, before);
    forall id ensures Has(before, id) <==> Has(after, id) {
      if Has(before, id) { var c :| c in before && c.id == id; assert c in after; }
      if Has(after, id) { var c :| c in after && c.id == id; assert c in before; }
    }
    forall a, b | a in before && b in after && a.id == b.id ensures Undisturbed(a, b) && a.status == b.status {
      SameIDSameContainer(before, a, b);
      UndisturbedByItself(a);
    }
  }

  lemma UndisturbedByItself(container: Container)
    ensures Undisturbed(container, container)
  {
    assert container == container.(status := container.status, ports := container.ports, created := container.created);
  }

  lemma SameIDSameContainer(containers: seq<Container>, a: Container, b: Container)
    requires ListedOnce(containers)
    requires a in containers && b in containers && a.id == b.id
    ensures a == b
  {
    var i :| 0 <= i < |containers| && containers[i] == a;
    var j :| 0 <= j < |containers| && containers[j] == b;
    assert i == j;
  }

  lemma FindContainer(containers: seq<Container>, of: Container -> Service, id: string)
    returns (found: Option<Container>)
    requires forall c :: of(c).containerID == c.id
    requires ListedOnce(containers)
    ensures match found
            case None => id !in Index(MapAll(of, containers)) && !Has(containers, id)
            case Some(c) =>
              && c in containers && c.id == id
              && id in Index(MapAll(of, containers)) && Index(MapAll(of, containers))[id] == of(c)
  {
    var services := MapAll(of, containers);
    IndexHoldsThemAll(services);
    if id in Index(services) {
      var service := Index(services)[id];
      assert service in services;
      var i :| 0 <= i < |services| && services[i] == service;
      assert containers[i] in containers;
      found := Some(containers[i]);
    } else {
      found := None;
      forall c | c in containers ensures c.id != id {
        assert of(c) in services;
      }
    }
  }

  /** The two containers an update is about. */
  lemma UpdateIsAbout(before: seq<Container>, after: seq<Container>, of: Container -> Service, e: Event)
    returns (a: Container, b: Container)
    requires forall c :: of(c).containerID == c.id
    requires ListedOnce(before) && ListedOnce(after)
    requires SameIDs(before, after)
    requires EventFor(Index(MapAll(of, before)), Index(MapAll(of, after)), ID(e)) == Some(e)
    ensures a in before && b in after && a.id == b.id == ID(e)
    ensures Changed(of(a), of(b)) && e == Event(Updated, of(b), Notable(of(a), of(b)))
  {
    var found := FindContainer(before, of, ID(e));
    var found' := FindContainer(after, of, ID(e));
    assert Has(before, ID(e)) <==> Has(after, ID(e));
    a, b := found.value, found'.value;
  }

  /** When nothing happened, all an announcement can say is that a status reads differently: every
      event is an update that is not notable, and there is none for a container whose status stayed
      as it was, however its bindings came back. */
  lemma TheClockIsNeverNews(before: seq<Container>, after: seq<Container>, e: Event)
    requires NothingHappened(before, after)
    ensures e in Diff(Index(ServicesOf(before)), Index(ServicesOf(after))) ==>
              && e.action == Updated && !e.notable
              && exists a, b :: a in before && b in after && a.id == b.id == ID(e) && a.status != b.status
  {
    if e in Diff(Index(ServicesOf(before)), Index(ServicesOf(after))) {
      var a, b := UpdateIsAbout(before, after, ServiceOf, e);
      UndisturbedIsNotNotable(a, b);
    }
  }

  ghost predicate SameStatuses(before: seq<Container>, after: seq<Container>) {
    forall a, b :: a in before && b in after && a.id == b.id ==> a.status == b.status
  }

  lemma ThereIsNoNews(before: seq<Container>, after: seq<Container>, e: Event)
    requires NothingHappened(before, after) && SameStatuses(before, after)
    ensures e !in Diff(Index(ServicesOf(before)), Index(ServicesOf(after)))
  {
    TheClockIsNeverNews(before, after, e);
  }

  /** Reordered listings and reordered or repeated bindings never produce an event. */
  lemma OrderIsNeverNews(before: seq<Container>, after: seq<Container>)
    requires NothingHappened(before, after) && SameStatuses(before, after)
    ensures Diff(Index(ServicesOf(before)), Index(ServicesOf(after))) == []
  {
    var events := Diff(Index(ServicesOf(before)), Index(ServicesOf(after)));
    EmptyOrMember(events);
    if events != [] {
      ThereIsNoNews(before, after, events[0]);
    }
  }

  /** The order the runtime lists containers in does not show. */
  lemma ReorderedListingIsNoNews(before: seq<Container>, after: seq<Container>)
    requires ListedOnce(before) && multiset(after) == multiset(before)
    ensures Diff(Index(ServicesOf(before)), Index(ServicesOf(after))) == []
  {
    NothingHappensByReordering(before, after);
    OrderIsNeverNews(before, after);
  }
}
