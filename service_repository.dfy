/** ServiceRepository: a list of registered service instances and a cache
    from a requested type to the first registered instance of that type. The
    static fields become the fields of one object; the lock is left out. */
module Services {
  import opened Results

  /** A service instance: its identity and the types it is an instance of
      (its class, that class's bases and the interfaces it implements).
      List.Contains compares instances by this value. */
  datatype Service = Service(id: nat, types: set<string>)

  predicate IsA(s: Service, t: string) {
    t in s.types
  }

  /** OfType<T>().FirstOrDefault() over the registered services. */
  function FirstOfType(services: seq<Service>, t: string): (r: Option<Service>)
    ensures r.None? <==> forall i :: 0 <= i < |services| ==> !IsA(services[i], t)
    ensures r.Some? ==>
      exists i :: 0 <= i < |services| && services[i] == r.value && IsA(r.value, t)
        && forall j :: 0 <= j < i ==> !IsA(services[j], t)
  {
    if services == [] then None
    else if IsA(services[0], t) then Some(services[0])
    else
      var r := FirstOfType(services[1..], t);
      if r.Some? then
        var i :| 0 <= i < |services[1..]| && services[1..][i] == r.value && IsA(r.value, t)
          && forall j :: 0 <= j < i ==> !IsA(services[1..][j], t);
        assert services[i + 1] == r.value;
        r
      else r
  }

  /** Appending a service never changes a first match that already exists,
      so a cache entry would survive an append; Register clears it anyway. */
  lemma {:induction false} FirstOfTypeAppend(services: seq<Service>, s: Service, t: string)
    ensures FirstOfType(services + [s], t) ==
      if FirstOfType(services, t).Some? then FirstOfType(services, t)
      else if IsA(s, t) then Some(s) else None
  {
    if services != [] {
      assert (services + [s])[1..] == services[1..] + [s];
      FirstOfTypeAppend(services[1..], s, t);
    }
  }

  class ServiceRepository {
    var services: seq<Service>
    var cache: map<string, Service>

    /** Every cached entry is what the first-of-type search gives now. */
    ghost predicate Valid()
      reads this
    {
      forall t :: t in cache ==> FirstOfType(services, t) == Some(cache[t])
    }

    /** The static fields' initial state: nothing registered, nothing
        cached. */
    constructor ()
      ensures services == [] && cache == map[] && Valid()
    {
      services := [];
      cache := map[];
    }

    /** Get<T>: the cached entry for T, else the first registered service
        that is a T, which is then cached; null, caching nothing, when no
        service is a T. */
    method Get(t: string) returns (r: Option<Service>)
      requires Valid()
      modifies this
      ensures Valid() && services == old(services)
      ensures r == FirstOfType(services, t)
      ensures t in old(cache) ==> cache == old(cache) && r == Some(old(cache)[t])
      ensures t !in old(cache) && r.None? ==> cache == old(cache)
      ensures t !in old(cache) && r.Some? ==> cache == old(cache)[t := r.value]
    {
      if t in cache {
        return Some(cache[t]);
      }
      r := FirstOfType(services, t);
      if r.None? {
        return;
      }
      cache := cache[t := r.value];
    }

    /** Register: null throws; an instance already in the list changes
        nothing; a new one is appended and the whole cache is cleared. */
    method Register(service: Option<Service>) returns (r: Result<()>)
      requires Valid()
      modifies this
      ensures Valid()
      ensures service.None? ==> r == Err(ArgumentNullException("service"))
      ensures service.None? || service.value in old(services) ==> services == old(services) && cache == old(cache)
      ensures service.Some? ==> r.Ok?
      ensures service.Some? && service.value !in old(services) ==>
        services == old(services) + [service.value] && cache == map[]
    {
      if service.None? {
        return Err(ArgumentNullException("service"));
      }
      if service.value in services {
        return Ok(());
      }
      services := services + [service.value];
      cache := map[];
      return Ok(());
    }
  }

  /** Registering two instances of one interface: Get answers with the first
      as long as nothing earlier is registered, and the cache agrees. */
  method RegisterTwice() returns (first: Option<Service>, again: Option<Service>)
    ensures first == Some(Service(1, {"IService1", "Service1A"}))
    ensures again == first
  {
    var repo := new ServiceRepository();
    var a := Service(1, {"IService1", "Service1A"});
    var b := Service(2, {"IService1", "Service1B"});
    var ok := repo.Register(Some(a));
    ok := repo.Register(Some(b));
    ok := repo.Register(Some(a));
    assert repo.services == [a, b];
    assert IsA(a, "IService1");
    first := repo.Get("IService1");
    again := repo.Get("IService1");
  }
}
