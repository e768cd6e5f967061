/** The life of the protocol objects of the Wayland backend. */
module WaylandObjects {
  import opened CNumbers
  import opened Settings

  const UINT32_MAX: nat := 0xFFFF_FFFF

  datatype Object = Display | Registry | Seat | Notifier | Notification

  /** What happens to protocol objects. An id stands for a pointer that is not null. */
  datatype Entry =
    | Connect(id: int)
    | GetRegistry(id: int)
    | BindSeat(id: int, version: nat)
    | BindNotifier(id: int, advertised: nat, version: nat)
    | Request(id: int, inputOnly: bool, timeoutMs: nat)
    | Destroy(target: Object, id: int)

  /** The objects alive; 0 is the null pointer. */
  datatype Handles = Handles(display: int, registry: int, seat: int, notifier: int, notification: int, boundVersion: nat)

  const NO_OBJECTS: Handles := Handles(0, 0, 0, 0, 0, 0)

  function HandleOf(h: Handles, o: Object): int {
    match o
    case Display => h.display
    case Registry => h.registry
    case Seat => h.seat
    case Notifier => h.notifier
    case Notification => h.notification
  }

  function Cleared(h: Handles, o: Object): Handles {
    match o
    case Display => h.(display := 0)
    case Registry => h.(registry := 0)
    case Seat => h.(seat := 0)
    case Notifier => h.(notifier := 0, boundVersion := 0)
    case Notification => h.(notification := 0)
  }

  function Min(a: nat, b: nat): nat {
    if a < b then a else b
  }

  /** One object of each kind at a time, made while what it needs is alive, and the display goes last. */
  predicate Proper(s: Settings, h: Handles, e: Entry) {
    match e
    case Connect(id) => id != 0 && h == NO_OBJECTS
    case GetRegistry(id) => id != 0 && h.display != 0 && h.registry == 0
    case BindSeat(id, version) => id != 0 && h.registry != 0 && h.seat == 0 && version == 1
    case BindNotifier(id, advertised, version) =>
      id != 0 && h.registry != 0 && h.notifier == 0 && version == Min(advertised, 2)
    case Request(id, inputOnly, timeoutMs) =>
      && id != 0 && h.seat != 0 && h.notifier != 0 && h.notification == 0
      && (inputOnly <==> h.boundVersion >= 2)
      && timeoutMs == Min(s.userIdleTimeoutMs, UINT32_MAX)
    case Destroy(o, id) =>
      && id != 0 && HandleOf(h, o) == id
      && (o.Display? ==> h.registry == 0 && h.seat == 0 && h.notifier == 0 && h.notification == 0)
      && (o.Registry? || o.Seat? || o.Notifier? ==> h.notification == 0)
  }

  function Apply(h: Handles, e: Entry): Handles {
    match e
    case Connect(id) => h.(display := id)
    case GetRegistry(id) => h.(registry := id)
    case BindSeat(id, _) => h.(seat := id)
    case BindNotifier(id, _, version) => h.(notifier := id, boundVersion := version)
    case Request(id, _, _) => h.(notification := id)
    case Destroy(o, _) => Cleared(h, o)
  }

  /** The objects alive after a history, or None for one that mistreats an object. */
  function Alive(s: Settings, history: seq<Entry>): Option<Handles> {
    if history == [] then Some(NO_OBJECTS)
    else
      var last := |history| - 1;
      match Alive(s, history[..last])
      case None => None
      case Some(h) => if Proper(s, h, history[last]) then Some(Apply(h, history[last])) else None
  }

  predicate Makes(e: Entry, o: Object) {
    match e
    case Connect(_) => o.Display?
    case GetRegistry(_) => o.Registry?
    case BindSeat(_, _) => o.Seat?
    case BindNotifier(_, _, _) => o.Notifier?
    case Request(_, _, _) => o.Notification?
    case Destroy(_, _) => false
  }

  /** The objects of a kind made, and those destroyed, in order. */
  function Made(history: seq<Entry>, o: Object): seq<int> {
    if history == [] then []
    else
      var e := history[|history| - 1];
      Made(history[..|history| - 1], o) + if Makes(e, o) then [e.id] else []
  }

  function Destroyed(history: seq<Entry>, o: Object): seq<int> {
    if history == [] then []
    else
      var e := history[|history| - 1];
      Destroyed(history[..|history| - 1], o) + if e.Destroy? && e.target == o then [e.id] else []
  }

  /** In every proper history the objects made are those destroyed, in order, and possibly one alive. */
  lemma {:induction false} MadeAndDestroyedMatch(s: Settings, history: seq<Entry>, o: Object)
    requires Alive(s, history).Some?
    ensures var id := HandleOf(Alive(s, history).value, o);
      Made(history, o) == Destroyed(history, o) + if id != 0 then [id] else []
  {
    if history != [] {
      var last := |history| - 1;
      MadeAndDestroyedMatch(s, history[..last], o);
    }
  }

  /** Over the whole life of the backend each object made is destroyed once, in the order in which its kind was made. */
  lemma EverythingMadeIsDestroyed(s: Settings, history: seq<Entry>, o: Object)
    requires Alive(s, history) == Some(NO_OBJECTS)
    ensures Made(history, o) == Destroyed(history, o)
  {
    MadeAndDestroyedMatch(s, history, o);
  }

  /** While it is in use, the backend never owns a second object of a kind: none is made after the first until that is destroyed. */
  lemma AtMostOneOfEachKind(s: Settings, history: seq<Entry>, o: Object)
    requires Alive(s, history).Some? && Destroyed(history, o) == []
    ensures |Made(history, o)| <= 1
  {
    MadeAndDestroyedMatch(s, history, o);
  }

  lemma {:induction false} BoundVersionIsKept(s: Settings, history: seq<Entry>, j: nat)
    requires Alive(s, history).Some? && j < |history| && history[j].BindNotifier?
    requires forall i :: j < i < |history| ==> !(history[i].Destroy? && history[i].target.Notifier?)
    ensures var h := Alive(s, history).value;
      h.notifier == history[j].id != 0 && h.boundVersion == history[j].version == if history[j].advertised < 2 then history[j].advertised else 2
    decreases |history|
  {
    var last := |history| - 1;
    if j < last { BoundVersionIsKept(s, history[..last], j); }
  }

  /**
    The notification is requested as the advertised version of the notifier in use
    allows, for the timeout asked for or, if that is beyond 32 bits, the longest.
   */
  lemma TheRequestFitsTheNotifier(s: Settings, history: seq<Entry>, j: nat, k: nat)
    requires Alive(s, history).Some? && j < k < |history| && history[j].BindNotifier? && history[k].Request?
    requires forall i :: j < i < k ==> !(history[i].Destroy? && history[i].target.Notifier?)
    ensures history[j].version <= 2 && history[j].version <= history[j].advertised
    ensures history[k].inputOnly <==> history[j].advertised >= 2
    ensures history[k].timeoutMs == if s.userIdleTimeoutMs > 4294967295 then 4294967295 else s.userIdleTimeoutMs
  {
    HistoriesBegin(s, history, k + 1);
    assert history[..k + 1][..k] == history[..k];
    HistoriesBegin(s, history, k);
    BoundVersionIsKept(s, history[..k], j);
  }

  lemma {:induction false} HistoriesBegin(s: Settings, history: seq<Entry>, n: nat)
    requires Alive(s, history).Some? && n <= |history|
    ensures Alive(s, history[..n]).Some?
    decreases |history|
  {
    if n < |history| {
      var before := history[..|history| - 1];
      HistoriesBegin(s, before, n);
      assert before[..n] == history[..n];
    } else {
      assert history[..n] == history;
    }
  }

  /** A registry announcement and, should the client bind it, the pointer it gets. */
  datatype Global = Global(interfaceName: string, version: nat, bound: int)

  /** The pointer got from the first announcement of an interface that can be bound, or 0. */
  function FirstOffer(globals: seq<Global>, interfaceName: string): int {
    if globals == [] then 0
    else
      var g := globals[|globals| - 1];
      var before := FirstOffer(globals[..|globals| - 1], interfaceName);
      if before == 0 && g.interfaceName == interfaceName then g.bound else before
  }

  /** What happens while the event loop runs: announcements, and attempts to create the notification object. */
  datatype LoopCall = Announce(global: Global) | StartNotification(created: int)

  /** The pointer got from the first attempt to create a notification object that succeeds, or 0. */
  function FirstCreated(calls: seq<LoopCall>): int {
    if calls == [] then 0
    else
      var call := calls[|calls| - 1];
      var before := FirstCreated(calls[..|calls| - 1]);
      if before == 0 && call.StartNotification? then call.created else before
  }

  /** It is the first announcement with the name that can be bound. */
  lemma {:induction false} TheFirstOfferCounts(globals: seq<Global>, interfaceName: string, k: nat)
    requires k < |globals| && globals[k].interfaceName == interfaceName && globals[k].bound != 0
    requires forall j :: 0 <= j < k && globals[j].interfaceName == interfaceName ==> globals[j].bound == 0
    ensures FirstOffer(globals, interfaceName) == globals[k].bound
  {
    var last := |globals| - 1;
    if k < last {
      TheFirstOfferCounts(globals[..last], interfaceName, k);
    } else {
      NoOffer(globals[..last], interfaceName);
    }
  }

  lemma {:induction false} NoOffer(globals: seq<Global>, interfaceName: string)
    requires forall j :: 0 <= j < |globals| && globals[j].interfaceName == interfaceName ==> globals[j].bound == 0
    ensures FirstOffer(globals, interfaceName) == 0
  {
    if globals != [] { NoOffer(globals[..|globals| - 1], interfaceName); }
  }

  function Listed(id: int): seq<int> {
    if id == 0 then [] else [id]
  }

  class IdleBackend {
    const settings: Settings

    var display: int
    var registry: int
    var seat: int
    var notifier: int
    var notifierVersion: nat
    var notification: int
    var available: bool
    ghost var history: seq<Entry>

    ghost function Pointers(): Handles
      reads this
    {
      Handles(display, registry, seat, notifier, notification, if notifier == 0 then 0 else notifierVersion)
    }

    ghost predicate Valid()
      reads this
    {
      Alive(settings, history) == Some(Pointers())
    }

    constructor (settings: Settings)
      ensures this.settings == settings && Valid() && Pointers() == NO_OBJECTS && history == [] && !available
    {
      this.settings := settings;
      display, registry, seat, notifier, notifierVersion, notification := 0, 0, 0, 0, 0, 0;
      available := false;
      history := [];
    }

    ghost method Log(e: Entry)
      requires Alive(settings, history).Some? && Proper(settings, Alive(settings, history).value, e)
      modifies this`history
      ensures Alive(settings, history) == Some(Apply(Alive(settings, old(history)).value, e))
      ensures history == old(history) + [e]
      ensures forall o :: Destroyed(history, o) == Destroyed(old(history), o) + if e == Destroy(o, e.id) then [e.id] else []
      ensures forall o :: Made(history, o) == Made(old(history), o) + if Makes(e, o) then [e.id] else []
    {
      assert (history + [e])[..|history|] == history;
      history := history + [e];
    }

    /** The registry callback: the first seat and the first notifier are bound, everything else is ignored. */
    method WaylandRegistryGlobal(g: Global)
      requires Valid() && registry != 0
      modifies this`seat, this`notifier, this`notifierVersion, this`history
      ensures Valid() && forall o :: Destroyed(history, o) == Destroyed(old(history), o)
      ensures seat == if old(seat) == 0 && g.interfaceName == "wl_seat" then g.bound else old(seat)
      ensures notifier == if old(notifier) == 0 && g.interfaceName == "ext_idle_notifier_v1" then g.bound else old(notifier)
    {
      hide Alive, Made, Destroyed;
      if g.interfaceName == "wl_seat" && seat == 0 {
        if g.bound != 0 { Log(BindSeat(g.bound, 1)); }
        seat := g.bound;
        return;
      }
      if g.interfaceName == "ext_idle_notifier_v1" && notifier == 0 {
        var bindVersion := if g.version < 2 then g.version else 2;
        notifierVersion := bindVersion;
        if g.bound != 0 { Log(BindNotifier(g.bound, g.version, bindVersion)); }
        notifier := g.bound;
      }
    }

    /** 0 if there is a notification object already, 1 if it has been created, and -1 if it cannot be. */
    method StartWaylandIdleNotificationObject(created: int) returns (r: int)
      requires Valid() && (available ==> seat != 0 && notifier != 0)
      modifies this`notification, this`history
      ensures Valid() && forall o :: Destroyed(history, o) == Destroyed(old(history), o)
      ensures r == if old(notification) != 0 then 0 else if !available || created == 0 then -1 else 1
      ensures notification == if r == 1 then created else old(notification)
      ensures r != 1 ==> history == old(history)
    {
      hide Alive, Made, Destroyed;
      if notification != 0 { return 0; }
      if !available { return -1; }
      var timeoutMs := if settings.userIdleTimeoutMs > UINT32_MAX then UINT32_MAX else settings.userIdleTimeoutMs;
      if created != 0 {
        if notifierVersion >= 2 {
          Log(Request(created, true, timeoutMs));
        } else {
          Log(Request(created, false, timeoutMs));
        }
      }
      notification := created;
      return if created == 0 then -1 else 1;
    }

    method DestroyNotification()
      requires Valid()
      modifies this`notification, this`history
      ensures Valid() && notification == 0
      ensures forall o :: Made(history, o) == Made(old(history), o)
    {
      hide Alive, Made, Destroyed;
      if notification != 0 {
        Log(Destroy(Notification, notification));
        notification := 0;
      }
    }

    method DestroyNotifier()
      requires Valid() && notification == 0
      modifies this`notifier, this`history
      ensures Valid() && notifier == 0
      ensures forall o :: Made(history, o) == Made(old(history), o)
    {
      hide Alive, Made, Destroyed;
      if notifier != 0 {
        Log(Destroy(Notifier, notifier));
        notifier := 0;
      }
    }

    method DestroySeat()
      requires Valid() && notification == 0
      modifies this`seat, this`history
      ensures Valid() && seat == 0
      ensures forall o :: Made(history, o) == Made(old(history), o)
    {
      hide Alive, Made, Destroyed;
      if seat != 0 {
        Log(Destroy(Seat, seat));
        seat := 0;
      }
    }

    method DestroyRegistry()
      requires Valid() && notification == 0
      modifies this`registry, this`history
      ensures Valid() && registry == 0
      ensures forall o :: Made(history, o) == Made(old(history), o)
    {
      hide Alive, Made, Destroyed;
      if registry != 0 {
        Log(Destroy(Registry, registry));
        registry := 0;
      }
    }

    method Disconnect()
      requires Valid() && notification == 0 && notifier == 0 && seat == 0 && registry == 0
      modifies this`display, this`history
      ensures Valid() && Pointers() == NO_OBJECTS
      ensures forall o :: Made(history, o) == Made(old(history), o)
    {
      hide Alive, Made, Destroyed;
      if display != 0 {
        Log(Destroy(Display, display));
        display := 0;
      }
    }

    static lemma NothingYet()
      ensures forall o :: Destroyed([], o) == [] && Made([], o) == []
    {
    }

    lemma MadeByNow(past: seq<Entry>, o: Object)
      requires Alive(settings, past).Some? && Destroyed(past, o) == []
      ensures Made(past, o) == Listed(HandleOf(Alive(settings, past).value, o))
    {
      MadeAndDestroyedMatch(settings, past, o);
    }

    /** `connected` and `gotRegistry` are the pointers the connection attempts deliver. */
    method TryInitializeWaylandIdleBackend(connected: int, gotRegistry: int, globals: seq<Global>) returns (ok: bool)
      requires Valid() && Pointers() == NO_OBJECTS && !available && history == []
      modifies this
      ensures Valid() && available == ok && (!ok ==> Pointers() == NO_OBJECTS)
      ensures ok ==> registry != 0 && notification == 0
      ensures ok ==> seat == FirstOffer(globals, "wl_seat") && notifier == FirstOffer(globals, "ext_idle_notifier_v1")
      ensures ok <==> connected != 0 && gotRegistry != 0
                      && FirstOffer(globals, "wl_seat") != 0 && FirstOffer(globals, "ext_idle_notifier_v1") != 0
      ensures ok ==> forall o :: Destroyed(history, o) == []
      ensures connected != 0 && gotRegistry != 0 ==>
        && Made(history, Seat) == Listed(FirstOffer(globals, "wl_seat"))
        && Made(history, Notifier) == Listed(FirstOffer(globals, "ext_idle_notifier_v1"))
        && Made(history, Notification) == []
    {
      NothingYet();
      hide Alive, Made, Destroyed;
      if connected == 0 { return false; }
      Log(Connect(connected));
      display := connected;
      if gotRegistry == 0 {
        Disconnect();
        return false;
      }
      Log(GetRegistry(gotRegistry));
      registry := gotRegistry;
      for i := 0 to |globals|
        invariant Valid() && registry != 0 && notification == 0 && !available
        invariant seat == FirstOffer(globals[..i], "wl_seat")
        invariant notifier == FirstOffer(globals[..i], "ext_idle_notifier_v1")
        invariant forall o :: Destroyed(history, o) == []
      {
        assert globals[..i + 1][..i] == globals[..i];
        WaylandRegistryGlobal(globals[i]);
      }
      assert globals[..|globals|] == globals;
      MadeByNow(history, Seat);
      MadeByNow(history, Notifier);
      MadeByNow(history, Notification);
      if seat == 0 || notifier == 0 {
        DestroyNotifier();
        DestroySeat();
        DestroyRegistry();
        Disconnect();
        return false;
      }
      available := true;
      return true;
    }

    /** The whole life of the backend; `loopResult` is what the event loop returns. */
    method TryMonitorWaylandIdleNotify(connected: int, gotRegistry: int, globals: seq<Global>, calls: seq<LoopCall>, loopResult: int)
      returns (r: int)
      requires Valid() && history == [] && Pointers() == NO_OBJECTS && !available
      modifies this
      ensures Alive(settings, history) == Some(NO_OBJECTS)
      ensures var seatId, notifierId := FirstOffer(globals, "wl_seat"), FirstOffer(globals, "ext_idle_notifier_v1");
        var connectedAtAll := connected != 0 && gotRegistry != 0;
        && (connectedAtAll ==> Made(history, Seat) == Listed(seatId) && Made(history, Notifier) == Listed(notifierId))
        && if connectedAtAll && seatId != 0 && notifierId != 0
           then r == loopResult && Made(history, Notification) == Listed(FirstCreated(calls))
           else r == -1
    {
      hide Alive, Made, Destroyed;
      var ok := TryInitializeWaylandIdleBackend(connected, gotRegistry, globals);
      if !ok { return -1; }
      ghost var seatId, notifierId := FirstOffer(globals, "wl_seat"), FirstOffer(globals, "ext_idle_notifier_v1");
      for i := 0 to |calls|
        invariant Valid() && registry != 0 && available && seat == seatId && notifier == notifierId
        invariant seatId != 0 && notifierId != 0 && notification == FirstCreated(calls[..i])
        invariant forall o :: Destroyed(history, o) == []
      {
        assert calls[..i + 1][..i] == calls[..i];
        match calls[i] {
          case Announce(g) => WaylandRegistryGlobal(g);
          case StartNotification(created) =>
            var started := StartWaylandIdleNotificationObject(created);
        }
      }
      assert calls[..|calls|] == calls;
      MadeByNow(history, Seat);
      MadeByNow(history, Notifier);
      MadeByNow(history, Notification);
      DestroyNotification();
      DestroyNotifier();
      DestroySeat();
      DestroyRegistry();
      Disconnect();
      return loopResult;
    }
  }
}
