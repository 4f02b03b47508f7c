/** The entities of internal/domain, and the order services are shown in. */
module Domain {
  import opened Ordering

  datatype Option<+T> = None | Some(value: T)

  datatype Result<+T, +E> = Success(value: T) | Failure(error: E)

  datatype State = Created | Running | Paused | Restarting | Removing | Exited | Dead | Unknown {
    /** A container counts as up only while it runs; one that keeps restarting does not. */
    predicate Online() { Running? }
  }

  datatype Health = HealthNone | Starting | Healthy | Unhealthy

  /** A container port; `host` is 0 when it is not published. */
  datatype Port = Port(host: int, container: int, protocol: string)

  /** One container of the project. `containerID` identifies it and its row. */
  datatype Service = Service(
    containerID: string,
    name: string,
    number: int,
    containerName: string,
    image: string,
    title: string,
    description: string,
    url: string,
    state: State,
    status: string,
    statusKind: string,
    elapsed: string,
    health: Health,
    ports: seq<Port>,
    created: int)
  {
    predicate Online() { state.Online() }
  }

  datatype Action = Added | Updated | Removed

  /** The word an action goes by. */
  function ActionText(action: Action): string {
    match action
    case Added => "added"
    case Updated => "updated"
    case Removed => "removed"
  }

  datatype Event = Event(action: Action, service: Service, notable: bool)

  datatype Summary = Summary(total: nat, online: nat, offline: nat)

  /** The comparison `SortServices` sorts by. */
  function CompareServices(a: Service, b: Service): int {
    Or(CompareStrings(a.name, b.name),
       CompareInts(a.number, b.number),
       CompareStrings(a.containerID, b.containerID))
  }

  /** The comparison `DiffSnapshots` puts its events in order with. */
  function CompareEvents(a: Event, b: Event): int {
    CompareServices(a.service, b.service)
  }

  lemma CompareServicesFlips(a: Service, b: Service)
    ensures CompareServices(a, b) == -CompareServices(b, a)
    ensures CompareServices(a, b) == 0
            <==> a.name == b.name && a.number == b.number && a.containerID == b.containerID
  {
    CompareStringsFlips(a.name, b.name);
    CompareStringsFlips(a.containerID, b.containerID);
  }

  lemma CompareServicesTransitive(a: Service, b: Service, c: Service)
    requires CompareServices(a, b) <= 0 && CompareServices(b, c) <= 0
    ensures CompareServices(a, c) <= 0
  {
    CompareStringsFlips(a.name, b.name);
    CompareStringsFlips(b.name, c.name);
    CompareStringsFlips(a.name, c.name);
    CompareStringsFlips(c.name, a.name);
    CompareStringsTransitive(a.name, b.name, c.name);
    if a.name == c.name {
      CompareStringsFlips(b.name, a.name);
      if a.number == b.number == c.number {
        CompareStringsTransitive(a.containerID, b.containerID, c.containerID);
      }
    }
  }

  lemma ServicesAreOrdered()
    ensures TotalPreorder(CompareServices)
    ensures TotalPreorder(CompareEvents)
  {
    forall a, b ensures CompareServices(a, b) < 0 <==> CompareServices(b, a) > 0 {
      CompareServicesFlips(a, b);
    }
    forall a, b, c | CompareServices(a, b) <= 0 && CompareServices(b, c) <= 0
      ensures CompareServices(a, c) <= 0
    {
      CompareServicesTransitive(a, b, c);
    }
  }

  /** The runtime lists each container once. */
  ghost predicate DistinctIDs(services: seq<Service>) {
    forall i, j :: 0 <= i < j < |services| ==> services[i].containerID != services[j].containerID
  }

  /** Services in display order: what a full render of them shows. */
  function InDisplayOrder(services: seq<Service>): seq<Service> {
    Sort(services, CompareServices)
  }

  lemma IDsTellApart(services: seq<Service>)
    requires DistinctIDs(services)
    ensures forall i, j :: 0 <= i < j < |services| ==> CompareServices(services[i], services[j]) != 0
  {
    forall i, j | 0 <= i < j < |services| ensures CompareServices(services[i], services[j]) != 0 {
      CompareServicesFlips(services[i], services[j]);
    }
  }

  lemma DisplayOrderIsStrict(services: seq<Service>)
    requires DistinctIDs(services)
    ensures StrictlySorted(InDisplayOrder(services), CompareServices)
    ensures forall s :: s in InDisplayOrder(services) <==> s in services
  {
    ServicesAreOrdered();
    IDsTellApart(services);
    SortSortsStrictly(services, CompareServices);
    SameMembers(InDisplayOrder(services), services);
  }

  /** `SortServices` sorts the slice it is given in place. Containers are listed once, so what
      it leaves there is the one list of those services in display order. */
  method SortServices(services: array<Service>)
    modifies services
    ensures Sorted(services[..], CompareServices)
    ensures multiset(services[..]) == multiset(old(services[..]))
    ensures DistinctIDs(old(services[..])) ==> services[..] == InDisplayOrder(old(services[..]))
  {
    ServicesAreOrdered();
    ghost var before := services[..];
    SortFunc(services, CompareServices);
    if DistinctIDs(before) {
      DisplayOrderIsStrict(before);
      IDsTellApart(before);
      SortedPermutationIsStrict(services[..], before, CompareServices);
      SameMembers(services[..], before);
      StrictlySortedIsUnique(services[..], InDisplayOrder(before), CompareServices);
    }
  }
}
