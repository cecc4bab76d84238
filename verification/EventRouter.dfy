/** The event router of INCLUDE/EVENTS.h and the guard object that attaches a
    handler for its own lifetime. */
module EventRouter {
  import opened Outcomes

  /** The router's two fields as a value. `H` stands for the handler type. */
  datatype Router<+H> = Router(next: int, handlers: map<int, H>)

  /** The value `size_t handle = -1` gives a guard before its attach succeeds. */
  const NO_HANDLE: int := 0xFFFF_FFFF_FFFF_FFFF

  datatype AttachError = BadAlloc

  function NewRouter<H>(): Router<H> {
    Router(1, map[])
  }

  /** `emplace`: an existing entry wins. */
  function Emplaced<H>(handlers: map<int, H>, key: int, handler: H): map<int, H> {
    if key in handlers then handlers else handlers[key := handler]
  }

  function Attached<H>(r: Router<H>, handler: H): Router<H> {
    Router(r.next + 1, Emplaced(r.handlers, r.next, handler))
  }

  /** An attach whose `emplace` throws: the counter has already moved. */
  function AttachAborted<H>(r: Router<H>): Router<H> {
    r.(next := r.next + 1)
  }

  function Detached<H>(r: Router<H>, handle: int): Router<H> {
    if handle in r.handlers then Router(r.next - 1, r.handlers - {handle}) else r
  }

  /** What one `call` does: every stored handler is invoked exactly once, with the event,
      and nothing else is. */
  ghost predicate InvokesEach<H, E>(handlers: map<int, H>, event: E, invoked: seq<(int, H, E)>) {
    && |invoked| == |handlers|
    && (forall i :: 0 <= i < |invoked| ==>
          invoked[i].0 in handlers && invoked[i] == (invoked[i].0, handlers[invoked[i].0], event))
    && (forall k :: k in handlers ==> exists i :: 0 <= i < |invoked| && invoked[i].0 == k)
  }

  class EventRouter<H> {
    var nextHandle: int
    var dispatchContainer: map<int, H>

    ghost function State(): Router<H>
      reads this
    {
      Router(nextHandle, dispatchContainer)
    }

    constructor ()
      ensures State() == NewRouter()
    {
      nextHandle := 1;
      dispatchContainer := map[];
    }

    method Attach(handler: H, emplaceThrows: bool) returns (result: Result<int, AttachError>)
      modifies this
      ensures result == if emplaceThrows then Failure(BadAlloc) else Success(old(nextHandle))
      ensures State() == if emplaceThrows then AttachAborted(old(State())) else Attached(old(State()), handler)
      ensures nextHandle == old(nextHandle) + 1
      ensures forall k :: k in old(dispatchContainer) ==>
                            k in dispatchContainer && dispatchContainer[k] == old(dispatchContainer[k])
    {
      var handle := nextHandle;
      nextHandle := nextHandle + 1;
      if emplaceThrows {
        return Failure(BadAlloc);
      }
      if handle !in dispatchContainer {
        dispatchContainer := dispatchContainer[handle := handler];
      }
      return Success(handle);
    }

    method Detach(handle: int) returns (erased: bool)
      modifies this
      ensures erased <==> handle in old(dispatchContainer)
      ensures State() == Detached(old(State()), handle)
      ensures handle !in dispatchContainer
      ensures |dispatchContainer| - nextHandle == old(|dispatchContainer| - nextHandle)
    {
      erased := handle in dispatchContainer;
      dispatchContainer := dispatchContainer - {handle};
      if erased {
        nextHandle := nextHandle - 1;
      }
    }

    /** `call`: `order` is the order in which the hash map happens to be visited. */
    method Call<E>(event: E, order: seq<int>) returns (invoked: seq<(int, H, E)>)
      requires multiset(order) == multiset(dispatchContainer.Keys)
      ensures InvokesEach(dispatchContainer, event, invoked)
    {
      invoked := [];
      assert |multiset(order)| == |dispatchContainer.Keys|;
      if |dispatchContainer| == 0 {
        assert dispatchContainer.Keys == {};
        return;
      }
      for n := 0 to |order|
        invariant |invoked| == n
        invariant forall i :: 0 <= i < n ==> order[i] in multiset(order)
        invariant forall i :: 0 <= i < n ==> order[i] in dispatchContainer
        invariant forall i :: 0 <= i < n ==> invoked[i] == (order[i], dispatchContainer[order[i]], event)
      {
        assert order[n] in multiset(order);
        invoked := invoked + [(order[n], dispatchContainer[order[n]], event)];
      }
      forall k | k in dispatchContainer ensures exists i :: 0 <= i < |invoked| && invoked[i].0 == k {
        assert k in multiset(order);
        var i :| 0 <= i < |order| && order[i] == k;
        assert invoked[i].0 == k;
      }
    }
  }

  /** `event_router_RAII`. Guards are neither copied nor assigned, so a guard is a
      reference here. */
  class RouterGuard<H> {
    const router: EventRouter<H>
    var handle: int

    constructor (router: EventRouter<H>, handler: H, emplaceThrows: bool)
      modifies router
      ensures this.router == router
      ensures handle == if emplaceThrows then NO_HANDLE else old(router.nextHandle)
      ensures router.State() == if emplaceThrows then AttachAborted(old(router.State()))
                                else Attached(old(router.State()), handler)
    {
      this.router := router;
      this.handle := NO_HANDLE;
      new;
      var attached := router.Attach(handler, emplaceThrows);
      match attached {
        case Success(h) =>
          handle := h;
        case Failure(_) =>
          // The catch block detaches only when `handle` was already assigned, which never happens.
          assert handle == NO_HANDLE;
      }
    }

    /** The destructor: it detaches unconditionally, even when nothing was attached. */
    method Destroy() returns (erased: bool)
      modifies router
      ensures erased <==> handle in old(router.dispatchContainer)
      ensures router.State() == Detached(old(router.State()), handle)
      ensures handle == old(handle)
    {
      erased := router.Detach(handle);
    }
  }
}
