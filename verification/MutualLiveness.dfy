/** Two channels that exchange heartbeats every tick over a network with delay and loss. */
module MutualLiveness {
  import opened Bytes
  import opened Liveness

  /** One end: its view, and how many heartbeats from the other end are under way to it. */
  datatype Node = Node(view: View, arriving: nat)

  datatype System = System(a: Node, b: Node)

  /** Second: the end's second tick, which sends a heartbeat if it believes the other end online.
      Arrive: n of the heartbeats under way to it are delivered, or all if there are fewer. Lose: n of them are lost.
      Other: any other message is handled. */
  datatype Action = Second(now: nat) | Arrive(n: nat) | Lose(n: nat) | Other(m: Message)

  datatype Event = OnA(act: Action) | OnB(act: Action)

  function Swap(s: System): System {
    System(s.b, s.a)
  }

  function Min(a: nat, b: nat): nat {
    if a <= b then a else b
  }

  function HandleMany(v: View, m: Message, n: nat): View
    decreases n
  {
    if n == 0 then v else HandleMany(Handle(v, m), m, n - 1)
  }

  /** What an action of end a does, with b as the other end. */
  function Act(s: System, act: Action): System {
    match act
    case Second(now) =>
      var v := Tick(s.a.view, now);
      System(Node(v, s.a.arriving), s.b.(arriving := s.b.arriving + if v.Online(s.b.view.self) then 1 else 0))
    case Arrive(n) =>
      var beat := Message(s.b.view.self, HEARTBEAT, 0);
      var k := Min(n, s.a.arriving);
      s.(a := Node(HandleMany(s.a.view, beat, k), s.a.arriving - k))
    case Lose(n) => s.(a := s.a.(arriving := s.a.arriving - Min(n, s.a.arriving)))
    case Other(m) => s.(a := s.a.(view := Handle(s.a.view, m)))
  }

  function Step(s: System, e: Event): System {
    if e.OnA? then Act(s, e.act) else Swap(Act(Swap(s), e.act))
  }

  /** What an observer of the schedule alone keeps per end: its clock; how many of its ticks have passed since the last
      delivery to it; and how many ticks of the other end have neither been followed by a delivery nor lost yet. */
  datatype Pace = Pace(clock: nat, age: nat, flying: nat)

  datatype Schedule = Schedule(a: Pace, b: Pace)

  function SwapSchedule(p: Schedule): Schedule {
    Schedule(p.b, p.a)
  }

  function Observe(p: Schedule, act: Action): Schedule {
    match act
    case Second(now) => Schedule(p.a.(clock := now, age := p.a.age + 1), p.b.(flying := p.b.flying + 1))
    case Arrive(n) =>
      var k := Min(n, p.a.flying);
      p.(a := if k > 0 then p.a.(age := 0, flying := p.a.flying - k) else p.a)
    case Lose(n) => p.(a := p.a.(flying := p.a.flying - Min(n, p.a.flying)))
    case Other(_) => p
  }

  function ObserveEvent(p: Schedule, e: Event): Schedule {
    if e.OnA? then Observe(p, e.act) else SwapSchedule(Observe(SwapSchedule(p), e.act))
  }

  /** Clocks advance by at most one per tick, and no end ticks more than three times without a delivery of some heartbeat. */
  predicate TimelyAct(p: Schedule, act: Action) {
    act.Second? ==> p.a.clock <= act.now <= p.a.clock + 1 && p.a.age < 3
  }

  predicate Timely(p: Schedule, events: seq<Event>)
    decreases |events|
  {
    events == [] ||
    var e := events[0];
    (if e.OnA? then TimelyAct(p, e.act) else TimelyAct(SwapSchedule(p), e.act)) && Timely(ObserveEvent(p, e), events[1..])
  }

  /** The other messages are not goodbyes of the other end. */
  predicate NoGoodbyeAct(s: System, act: Action) {
    act.Other? && act.m.from == s.b.view.self ==> act.m.kind != GOODBYE
  }

  predicate NoGoodbyes(s: System, events: seq<Event>)
    decreases |events|
  {
    events == [] ||
    (NoGoodbyeAct(if events[0].OnA? then s else Swap(s), events[0].act) && NoGoodbyes(Step(s, events[0]), events[1..]))
  }

  function Run(s: System, events: seq<Event>): System
    decreases |events|
  {
    if events == [] then s else Run(Step(s, events[0]), events[1..])
  }

  /** End n believes p online, its record lags its clock by at most the age, and a heartbeat is under way for each
      tick of the other end whose own was neither delivered nor lost. */
  predicate Trusts(n: Node, p: Place, pace: Pace) {
    && n.view.Has(p) && n.view.self != p
    && n.view.At(p).isOnline
    && n.view.now == pace.clock
    && n.view.now <= n.view.At(p).lastHeartbeat + pace.age
    && pace.age <= 3
    && pace.flying == n.arriving
  }

  predicate Mutual(s: System, p: Schedule) {
    Trusts(s.a, s.b.view.self, p.a) && Trusts(s.b, s.a.view.self, p.b)
  }

  lemma {:induction false} ManyHeartbeats(v: View, p: Place, n: nat)
    requires v.Has(p)
    ensures var r := HandleMany(v, Message(p, HEARTBEAT, 0), n);
            && r.Has(p) && r.now == v.now && r.self == v.self
            && r.At(p).isOnline == v.At(p).isOnline
            && r.At(p).lastHeartbeat == if n == 0 then v.At(p).lastHeartbeat else v.now
    decreases n
  {
    if n > 0 {
      HandleAt(v, Message(p, HEARTBEAT, 0), p);
      ManyHeartbeats(Handle(v, Message(p, HEARTBEAT, 0)), p, n - 1);
    }
  }

  lemma ActKeepsMutual(s: System, p: Schedule, act: Action)
    requires Mutual(s, p) && TimelyAct(p, act) && NoGoodbyeAct(s, act)
    ensures Mutual(Act(s, act), Observe(p, act))
  {
    var other := s.b.view.self;
    match act
    case Second(now) => TickAt(s.a.view, now, other);
    case Arrive(n) => ManyHeartbeats(s.a.view, other, Min(n, s.a.arriving));
    case Lose(n) =>
    case Other(m) => HandleAt(s.a.view, m, other);
  }

  /** Two ends that start online to each other, and whose ticks and deliveries keep pace, stay mutually online in every
      run until one says goodbye. */
  lemma {:induction false} StayMutuallyOnline(s: System, p: Schedule, events: seq<Event>)
    requires Mutual(s, p) && Timely(p, events) && NoGoodbyes(s, events)
    ensures var end := Run(s, events);
            end.a.view.Online(end.b.view.self) && end.b.view.Online(end.a.view.self)
    decreases |events|
  {
    if events != [] {
      var e := events[0];
      if e.OnA? {
        ActKeepsMutual(s, p, e.act);
      } else {
        ActKeepsMutual(Swap(s), SwapSchedule(p), e.act);
      }
      StayMutuallyOnline(Step(s, e), ObserveEvent(p, e), events[1..]);
    }
  }

  /** Two ends that have just heard of each other are such a start, whatever numbers of players they report. */
  lemma HandshakeIsMutual(s: System, players: u16, answering: u16)
    requires s.a.view.Has(s.b.view.self) && s.b.view.Has(s.a.view.self) && s.a.view.self != s.b.view.self
    ensures var hello := Message(s.a.view.self, HELLO, players);
            var answer := Message(s.b.view.self, HELLO_ANSWER, answering);
            var met := System(s.a.(view := Handle(s.a.view, answer)), s.b.(view := Handle(s.b.view, hello)));
            Mutual(met, Schedule(Pace(s.a.view.now, 0, s.a.arriving), Pace(s.b.view.now, 0, s.b.arriving)))
  {
    HandleAt(s.b.view, Message(s.a.view.self, HELLO, players), s.a.view.self);
    HandleAt(s.a.view, Message(s.b.view.self, HELLO_ANSWER, answering), s.b.view.self);
  }
}
