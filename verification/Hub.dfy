/**
  The SSE hub: who owns a channel, who closes it and what reaches it. Write-locked sections are one
  event each. Read-locked ones are not: broadcasts share the lock, so they run side by side and
  offer to one channel at a time, while receivers take from their channels without any lock.
  Sending on a closed channel and closing one twice panic in Go; here they set a flag.
 */
module Hub {
  import opened Prelude

  type Chan = nat
  type User = string
  type Call = nat

  const CAPACITY := 16

  datatype Message = Message(kind: string, data: string)

  /**
    One attempt to send and the call of Broadcast or SendToUser that made it; `taken` is how many
    messages the client had received by then.
   */
  datatype Offer = Offer(call: Call, message: Message, taken: nat, accepted: bool)

  /** A channel with its history. */
  datatype Channel = Channel(
    open: bool, buffer: seq<Message>, offers: seq<Offer>, received: seq<Message>, closes: nat)

  const NEW_CHANNEL := Channel(true, [], [], [], 0)

  function Offered(c: Channel, call: Call, m: Message): Channel {
    var fits := |c.buffer| < CAPACITY;
    c.(buffer := if fits then c.buffer + [m] else c.buffer,
       offers := c.offers + [Offer(call, m, |c.received|, fits)])
  }

  function Closed(c: Channel): Channel { c.(open := false, closes := c.closes + 1) }

  function Taken(c: Channel): Channel
    requires c.buffer != []
  {
    c.(buffer := c.buffer[1..], received := c.received + [c.buffer[0]])
  }

  /** The messages that were accepted, in the order they were offered. */
  function Accepted(offers: seq<Offer>): seq<Message> {
    if offers == [] then []
    else
      var n := |offers| - 1;
      Accepted(offers[..n]) + if offers[n].accepted then [offers[n].message] else []
  }

  /**
    The client has received, in order and once each, a prefix of the accepted messages, the rest
    is still buffered, and a message was dropped exactly when 16 were buffered.
   */
  ghost predicate ChannelOk(c: Channel) {
    && |c.buffer| <= CAPACITY
    && c.received + c.buffer == Accepted(c.offers)
    && (forall i :: 0 <= i < |c.offers| ==>
          (c.offers[i].accepted <==> |Accepted(c.offers[..i])| - c.offers[i].taken != CAPACITY))
    && c.closes == if c.open then 0 else 1
  }

  lemma OfferKeepsOk(c: Channel, call: Call, m: Message)
    requires ChannelOk(c)
    ensures ChannelOk(Offered(c, call, m))
  {
    var c', n := Offered(c, call, m), |c.offers|;
    assert c'.offers[..n] == c.offers;
    assert forall i :: 0 <= i < n ==> c'.offers[..i] == c.offers[..i];
    assert |Accepted(c.offers)| == |c.received| + |c.buffer|;
    assert c.received + (c.buffer + [m]) == (c.received + c.buffer) + [m];
  }

  lemma TakeKeepsOk(c: Channel)
    requires ChannelOk(c) && c.buffer != []
    ensures ChannelOk(Taken(c))
  {
    assert (c.received + [c.buffer[0]]) + c.buffer[1..] == c.received + c.buffer;
  }

  lemma CloseKeepsOk(c: Channel)
    requires ChannelOk(c) && c.open
    ensures ChannelOk(Closed(c))
  {
  }

  lemma NewIsOk()
    ensures ChannelOk(NEW_CHANNEL)
  {
  }

  // ---------- the world ----------

  /** A stream's handler: serving, on its way into the deferred cleanup, or past it. */
  datatype Phase = Running | Leaving | Gone

  /** A read-locked section under way: its message and the channels it has yet to offer to. */
  datatype Sending = Sending(message: Message, todo: set<Chan>)

  /** What a call was asked to send, and the channels it found registered for that. */
  datatype Request = Request(message: Message, addressees: set<Chan>)

  datatype World = World(
    maxClients: int,
    clients: map<Chan, User>,
    chans: map<Chan, Channel>,
    streams: map<Chan, Phase>,
    senders: map<Call, Sending>,
    calls: map<Call, Request>,
    panicked: bool)

  datatype Event =
    | Serve(ch: Chan, user: User)
    | Receive(ch: Chan)
    | Leave(ch: Chan)
    | CleanUp(ch: Chan)
    | StartBroadcast(call: Call, message: Message)
    | StartSend(call: Call, user: User, message: Message)
    | OfferNext(call: Call, ch: Chan)
    | EndSend(call: Call)
    | RevokeUser(user: User)

  function Start(maxClients: int): World {
    World(maxClients, map[], map[], map[], map[], map[], false)
  }

  /** The write lock is free of readers. */
  predicate Exclusive(w: World) { w.senders == map[] }

  predicate Legal(w: World, e: Event) {
    match e
    case Serve(ch, _) => Exclusive(w) && ch !in w.chans
    case Receive(ch) =>
      ch in w.streams && w.streams[ch] == Running && ch in w.chans && w.chans[ch].buffer != []
    case Leave(ch) => ch in w.streams && w.streams[ch] == Running
    case CleanUp(ch) => Exclusive(w) && ch in w.streams && w.streams[ch] == Leaving && ch in w.chans
    case StartBroadcast(c, _) => c !in w.calls
    case StartSend(c, _, _) => c !in w.calls
    case OfferNext(c, ch) => c in w.senders && ch in w.senders[c].todo && ch in w.chans
    case EndSend(c) => c in w.senders && w.senders[c].todo == {}
    case RevokeUser(_) => Exclusive(w)
  }

  predicate Full(w: World) { w.maxClients > 0 && |w.clients| >= w.maxClients }

  function Owned(clients: map<Chan, User>, u: User): set<Chan> {
    set ch | ch in clients && clients[ch] == u
  }

  /** Everybody, or the channels of one user. */
  function Addressees(clients: map<Chan, User>, to: Option<User>): set<Chan> {
    if to.None? then clients.Keys else Owned(clients, to.value)
  }

  function ClosedAll(chans: map<Chan, Channel>, gone: set<Chan>): map<Chan, Channel> {
    map ch | ch in chans :: if ch in gone then Closed(chans[ch]) else chans[ch]
  }

  function OfferedAll(chans: map<Chan, Channel>, todo: set<Chan>, call: Call, m: Message)
    : map<Chan, Channel>
  {
    map ch | ch in chans :: if ch in todo then Offered(chans[ch], call, m) else chans[ch]
  }

  /** Under the shared lock a call finds its addressees in the map. */
  function Begun(w: World, c: Call, to: Option<User>, m: Message): World {
    var all := Addressees(w.clients, to);
    w.(senders := w.senders[c := Sending(m, all)], calls := w.calls[c := Request(m, all)])
  }

  function OfferTo(w: World, c: Call, ch: Chan): World
    requires c in w.senders && ch in w.chans
  {
    var s := w.senders[c];
    w.(chans := w.chans[ch := Offered(w.chans[ch], c, s.message)],
       senders := w.senders[c := s.(todo := s.todo - {ch})],
       panicked := w.panicked || !w.chans[ch].open)
  }

  function Clean(w: World, ch: Chan): World
    requires ch in w.chans
  {
    var gone := w.(streams := w.streams[ch := Gone]);
    if ch !in w.clients then gone
    else
      gone.(clients := w.clients - {ch}, chans := w.chans[ch := Closed(w.chans[ch])],
            panicked := w.panicked || !w.chans[ch].open)
  }

  function Revoked(w: World, u: User): World {
    var mine := Owned(w.clients, u);
    w.(clients := w.clients - mine,
       chans := ClosedAll(w.chans, mine),
       panicked := w.panicked || exists ch :: ch in mine && ch in w.chans && !w.chans[ch].open)
  }

  function After(w: World, e: Event): World
    requires Legal(w, e)
  {
    match e
    case Serve(ch, u) =>
      if Full(w) then w
      else w.(clients := w.clients[ch := u], chans := w.chans[ch := NEW_CHANNEL],
              streams := w.streams[ch := Running])
    case Receive(ch) => w.(chans := w.chans[ch := Taken(w.chans[ch])])
    case Leave(ch) => w.(streams := w.streams[ch := Leaving])
    case CleanUp(ch) => Clean(w, ch)
    case StartBroadcast(c, m) => Begun(w, c, None, m)
    case StartSend(c, u, m) => Begun(w, c, Some(u), m)
    case OfferNext(c, ch) => OfferTo(w, c, ch)
    case EndSend(c) => w.(senders := w.senders - {c})
    case RevokeUser(u) => Revoked(w, u)
  }

  ghost predicate LegalRun(w: World, es: seq<Event>)
    decreases |es|
  {
    es != [] ==> Legal(w, es[0]) && LegalRun(After(w, es[0]), es[1..])
  }

  function Final(w: World, es: seq<Event>): World
    requires LegalRun(w, es)
    decreases |es|
  {
    if es == [] then w else Final(After(w, es[0]), es[1..])
  }

  // ---------- the invariant ----------

  /** A channel is in the map exactly when it is open, and a finished stream's is neither. */
  ghost predicate Ownership(w: World) {
    && w.streams.Keys == w.chans.Keys
    && (forall ch :: ch in w.clients <==> ch in w.chans && w.chans[ch].open)
    && (forall ch :: ch in w.streams && w.streams[ch] == Gone ==> ch !in w.clients)
  }

  ghost predicate ChannelsOk(w: World) {
    forall ch :: ch in w.chans ==> ChannelOk(w.chans[ch])
  }

  /** While the lock is shared, everything still to be offered to is in the map. */
  ghost predicate SendersOk(w: World) {
    forall c :: c in w.senders ==> w.senders[c].todo <= w.clients.Keys
  }

  ghost predicate MapOk(w: World) {
    && Ownership(w) && SendersOk(w)
    && (w.maxClients > 0 ==> |w.clients| <= w.maxClients)
    && !w.panicked
  }

  ghost predicate Inv(w: World) { MapOk(w) && ChannelsOk(w) }

  lemma SmallerKeys(a: map<Chan, User>, b: map<Chan, User>)
    requires a.Keys <= b.Keys
    ensures |a| <= |b|
  {
    assert b.Keys == a.Keys + (b.Keys - a.Keys);
  }

  lemma FewerClients(a: map<Chan, User>, gone: set<Chan>)
    ensures |a - gone| <= |a|
  {
    SmallerKeys(a - gone, a);
  }

  lemma ServeKeepsMap(w: World, e: Event)
    requires MapOk(w) && Legal(w, e) && e.Serve?
    ensures MapOk(After(w, e))
  {
    if !Full(w) {
      AddedKey(w.clients, e.ch, e.user);
    }
  }

  lemma AddedKey(m: map<Chan, User>, ch: Chan, u: User)
    ensures |m[ch := u]| == if ch in m then |m| else |m| + 1
  {
    assert m[ch := u].Keys == m.Keys + {ch};
  }

  lemma CleanUpKeepsMap(w: World, e: Event)
    requires MapOk(w) && Legal(w, e) && e.CleanUp?
    ensures MapOk(After(w, e))
  {
    FewerClients(w.clients, {e.ch});
    CleanUpKeepsOwnership(w, e);
  }

  lemma CleanUpKeepsOwnership(w: World, e: Event)
    requires Ownership(w) && Legal(w, e) && e.CleanUp?
    ensures Ownership(After(w, e))
  {
  }

  lemma RevokeKeepsMap(w: World, e: Event)
    requires MapOk(w) && Legal(w, e) && e.RevokeUser?
    ensures MapOk(After(w, e))
  {
    FewerClients(w.clients, Owned(w.clients, e.user));
  }

  lemma SendKeepsMap(w: World, e: Event)
    requires MapOk(w) && Legal(w, e)
    requires e.StartBroadcast? || e.StartSend? || e.OfferNext? || e.EndSend?
    ensures MapOk(After(w, e))
  {
  }

  lemma StepKeepsMap(w: World, e: Event)
    requires MapOk(w) && Legal(w, e)
    ensures MapOk(After(w, e))
  {
    match e {
      case Serve(_, _) => ServeKeepsMap(w, e);
      case CleanUp(_) => CleanUpKeepsMap(w, e);
      case RevokeUser(_) => RevokeKeepsMap(w, e);
      case Receive(_) =>
      case Leave(_) =>
      case _ => SendKeepsMap(w, e);
    }
  }

  /** What one event can do to one channel. */
  datatype Change = Kept | Sent(call: Call, message: Message) | Took | Shut

  function Changed(c: Channel, x: Change): Channel
    requires x.Took? ==> c.buffer != []
  {
    match x
    case Kept => c
    case Sent(call, m) => Offered(c, call, m)
    case Took => Taken(c)
    case Shut => Closed(c)
  }

  lemma ChannelAfter(w: World, e: Event, ch: Chan) returns (x: Change)
    requires MapOk(w) && Legal(w, e) && ch in After(w, e).chans
    ensures ch !in w.chans ==> After(w, e).chans[ch] == NEW_CHANNEL
    ensures ch in w.chans ==>
              && (x.Took? ==> w.chans[ch].buffer != []) && (x.Shut? ==> w.chans[ch].open)
              && After(w, e).chans[ch] == Changed(w.chans[ch], x)
  {
    if e.Receive? && e.ch == ch { x := Took; }
    else if e.OfferNext? && e.ch == ch { x := Sent(e.call, w.senders[e.call].message); }
    else if e.CleanUp? && e.ch == ch && ch in w.clients { x := Shut; }
    else if e.RevokeUser? { x := ChannelAfterRevoke(w, e.user, ch); }
    else { x := Kept; }
  }

  lemma ChannelAfterRevoke(w: World, u: User, ch: Chan) returns (x: Change)
    requires MapOk(w) && Legal(w, RevokeUser(u)) && ch in w.chans
    ensures x.Kept? || (x.Shut? && w.chans[ch].open)
    ensures Revoked(w, u).chans[ch] == Changed(w.chans[ch], x)
  {
    x := if ch in Owned(w.clients, u) then Shut else Kept;
  }

  lemma ChangeKeepsOk(c: Channel, x: Change)
    requires ChannelOk(c) && (x.Took? ==> c.buffer != []) && (x.Shut? ==> c.open)
    ensures ChannelOk(Changed(c, x))
  {
    match x {
      case Kept =>
      case Sent(call, m) => OfferKeepsOk(c, call, m);
      case Took => TakeKeepsOk(c);
      case Shut => CloseKeepsOk(c);
    }
  }

  lemma StepKeepsInv(w: World, e: Event)
    requires Inv(w) && Legal(w, e)
    ensures Inv(After(w, e))
  {
    StepKeepsMap(w, e);
    var w' := After(w, e);
    forall ch | ch in w'.chans ensures ChannelOk(w'.chans[ch]) {
      var x := ChannelAfter(w, e, ch);
      if ch in w.chans { ChangeKeepsOk(w.chans[ch], x); } else { NewIsOk(); }
    }
  }

  lemma {:induction false} RunKeepsInv(w: World, es: seq<Event>)
    requires Inv(w) && LegalRun(w, es)
    ensures Inv(Final(w, es))
    decreases |es|
  {
    if es != [] {
      StepKeepsInv(w, es[0]);
      RunKeepsInv(After(w, es[0]), es[1..]);
    }
  }

  // ---------- which call offered what ----------

  function CallsOf(offers: seq<Offer>): set<Call> {
    set i | 0 <= i < |offers| :: offers[i].call
  }

  predicate Pending(w: World, c: Call, ch: Chan) { c in w.senders && ch in w.senders[c].todo }

  /** The calls that addressed a channel and are done with it. */
  function Served(w: World, ch: Chan): set<Call> {
    set c | c in w.calls && ch in w.calls[c].addressees && !Pending(w, c, ch)
  }

  ghost predicate CallsOk(w: World) {
    && (forall c :: c in w.calls ==> w.calls[c].addressees <= w.chans.Keys)
    && forall c :: c in w.senders ==>
         c in w.calls && w.senders[c].message == w.calls[c].message
         && w.senders[c].todo <= w.calls[c].addressees
  }

  /** The offers to a channel come from different calls, exactly those that addressed it. */
  ghost predicate OffersOk(w: World, ch: Chan, offers: seq<Offer>) {
    && (forall i, j :: 0 <= i < j < |offers| ==> offers[i].call != offers[j].call)
    && CallsOf(offers) == Served(w, ch)
    && forall i :: 0 <= i < |offers| ==>
         offers[i].call in w.calls && offers[i].message == w.calls[offers[i].call].message
  }

  ghost predicate Tied(w: World) {
    CallsOk(w) && forall ch :: ch in w.chans ==> OffersOk(w, ch, w.chans[ch].offers)
  }

  lemma StepKeepsCalls(w: World, e: Event)
    requires MapOk(w) && CallsOk(w) && Legal(w, e)
    ensures CallsOk(After(w, e))
  {
    if e.StartBroadcast? || e.StartSend? {
      assert w.clients.Keys <= w.chans.Keys;
    }
  }

  /** Only its own next offer, and the beginning of a call, move what is pending at a channel. */
  lemma ServedAfter(w: World, e: Event, ch: Chan)
    requires MapOk(w) && CallsOk(w) && Legal(w, e) && ch in w.chans
    ensures Served(After(w, e), ch)
            == if e.OfferNext? && e.ch == ch then Served(w, ch) + {e.call} else Served(w, ch)
  {
    if e.StartBroadcast? || e.StartSend? {
      BegunServed(w, e, ch);
    } else if e.OfferNext? {
      OfferServed(w, e, ch);
    }
  }

  lemma BegunServed(w: World, e: Event, ch: Chan)
    requires CallsOk(w) && Legal(w, e) && (e.StartBroadcast? || e.StartSend?)
    ensures Served(After(w, e), ch) == Served(w, ch)
  {
    var w' := After(w, e);
    forall c ensures c in Served(w', ch) <==> c in Served(w, ch) {
      if c == e.call {
        assert w'.senders[c].todo == w'.calls[c].addressees;
      }
    }
  }

  lemma OfferServed(w: World, e: Event, ch: Chan)
    requires CallsOk(w) && Legal(w, e) && e.OfferNext?
    ensures Served(After(w, e), ch) == if e.ch == ch then Served(w, ch) + {e.call} else Served(w, ch)
  {
  }

  lemma CallsOfMore(offers: seq<Offer>, x: Offer)
    ensures CallsOf(offers + [x]) == CallsOf(offers) + {x.call}
  {
    var more := offers + [x];
    forall c ensures c in CallsOf(more) <==> c in CallsOf(offers) + {x.call} {
      if c in CallsOf(more) {
        var i :| 0 <= i < |more| && more[i].call == c;
        assert i < |offers| ==> offers[i].call == c;
      }
      if c in CallsOf(offers) {
        var i :| 0 <= i < |offers| && offers[i].call == c;
        assert more[i].call == c;
      }
      assert more[|offers|].call == x.call;
    }
  }

  /** Offers are added at the end, one per OfferNext, and by nothing else. */
  lemma OffersAfter(w: World, e: Event, ch: Chan)
    requires MapOk(w) && Legal(w, e) && ch in w.chans
    ensures ch in After(w, e).chans
    ensures After(w, e).chans[ch].offers
            == if e.OfferNext? && e.ch == ch
               then Offered(w.chans[ch], e.call, w.senders[e.call].message).offers
               else w.chans[ch].offers
  {
  }

  lemma OfferKeepsTie(w: World, e: Event)
    requires MapOk(w) && Tied(w) && Legal(w, e) && e.OfferNext?
    ensures OffersOk(After(w, e), e.ch, After(w, e).chans[e.ch].offers)
  {
    var offers, more := w.chans[e.ch].offers, After(w, e).chans[e.ch].offers;
    var x := more[|offers|];
    assert more == offers + [x];
    CallsOfMore(offers, x);
    ServedAfter(w, e, e.ch);
    assert e.call !in Served(w, e.ch);
    forall i | 0 <= i < |offers| ensures more[i].call != x.call {
      assert offers[i].call in CallsOf(offers);
    }
  }

  lemma OthersKeepTie(w: World, e: Event, ch: Chan)
    requires MapOk(w) && Tied(w) && Legal(w, e) && ch in w.chans && !(e.OfferNext? && e.ch == ch)
    ensures OffersOk(After(w, e), ch, After(w, e).chans[ch].offers)
  {
    ServedAfter(w, e, ch);
    OffersAfter(w, e, ch);
    assert OffersOk(w, ch, w.chans[ch].offers);
  }

  lemma NewIsTied(w: World, e: Event, ch: Chan)
    requires MapOk(w) && CallsOk(w) && Legal(w, e) && ch !in w.chans && ch in After(w, e).chans
    ensures OffersOk(After(w, e), ch, After(w, e).chans[ch].offers)
  {
    var x := ChannelAfter(w, e, ch);
    assert Served(After(w, e), ch) == {};
  }

  lemma StepKeepsTie(w: World, e: Event)
    requires MapOk(w) && Tied(w) && Legal(w, e)
    ensures Tied(After(w, e))
  {
    var w' := After(w, e);
    StepKeepsCalls(w, e);
    forall ch | ch in w'.chans ensures OffersOk(w', ch, w'.chans[ch].offers) {
      if ch !in w.chans { NewIsTied(w, e, ch); }
      else if e.OfferNext? && e.ch == ch { OfferKeepsTie(w, e); }
      else { OthersKeepTie(w, e, ch); }
    }
  }

  /** Over a run nothing that was offered is taken back or changed, and no call is forgotten. */
  lemma {:induction false} RunKeepsTie(w: World, es: seq<Event>)
    requires MapOk(w) && Tied(w) && LegalRun(w, es)
    ensures MapOk(Final(w, es)) && Tied(Final(w, es))
    ensures w.calls.Keys <= Final(w, es).calls.Keys
    ensures forall ch :: ch in w.chans ==>
              ch in Final(w, es).chans && w.chans[ch].offers <= Final(w, es).chans[ch].offers
    decreases |es|
  {
    if es != [] {
      StepKeepsMap(w, es[0]);
      StepKeepsTie(w, es[0]);
      OffersGrow(w, es[0]);
      RunKeepsTie(After(w, es[0]), es[1..]);
    }
  }

  lemma OffersGrow(w: World, e: Event)
    requires MapOk(w) && Legal(w, e)
    ensures w.calls.Keys <= After(w, e).calls.Keys
    ensures forall ch :: ch in w.chans ==>
              ch in After(w, e).chans && w.chans[ch].offers <= After(w, e).chans[ch].offers
  {
    forall ch | ch in w.chans
      ensures ch in After(w, e).chans && w.chans[ch].offers <= After(w, e).chans[ch].offers
    {
      OffersAfter(w, e, ch);
    }
  }

  lemma {:induction false} RunsOn(w: World, es: seq<Event>, c: Call)
    requires LegalRun(w, es) && c in w.calls
    ensures c in Final(w, es).calls && Final(w, es).calls[c] == w.calls[c]
    decreases |es|
  {
    if es != [] {
      RunsOn(After(w, es[0]), es[1..], c);
    }
  }

  lemma LaterOffer(early: seq<Offer>, late: seq<Offer>, c: Call, d: Call, i: nat, j: nat)
    requires early <= late && c in CallsOf(early) && d !in CallsOf(early)
    requires forall k, l :: 0 <= k < l < |late| ==> late[k].call != late[l].call
    requires i < |late| && j < |late| && late[i].call == c && late[j].call == d
    ensures i < j
  {
    var k :| 0 <= k < |early| && early[k].call == c;
    assert forall l :: 0 <= l < |early| ==> early[l] == late[l];
  }

  lemma Addressed(w: World, ch: Chan, i: nat)
    requires Tied(w) && ch in w.chans && i < |w.chans[ch].offers|
    ensures var c := w.chans[ch].offers[i].call;
            c in w.calls && ch in w.calls[c].addressees
    ensures forall k, l :: 0 <= k < l < |w.chans[ch].offers| ==>
              w.chans[ch].offers[k].call != w.chans[ch].offers[l].call
  {
    assert OffersOk(w, ch, w.chans[ch].offers);
    assert w.chans[ch].offers[i].call in CallsOf(w.chans[ch].offers);
  }

  lemma Finished(w: World, ch: Chan, c: Call)
    requires Tied(w) && c in w.calls && c !in w.senders && ch in w.calls[c].addressees
    ensures ch in w.chans && c in CallsOf(w.chans[ch].offers)
  {
    assert OffersOk(w, ch, w.chans[ch].offers);
    assert c in Served(w, ch);
  }

  lemma Unheard(w: World, ch: Chan, d: Call)
    requires Tied(w) && ch in w.chans && d !in w.calls
    ensures d !in CallsOf(w.chans[ch].offers)
  {
    assert OffersOk(w, ch, w.chans[ch].offers);
  }

  /** The one that a send for `u`, or a broadcast, must reach: registered, and for `u`, of that user. */
  predicate Reaches(w: World, to: Option<User>, ch: Chan) {
    ch in w.clients && (to.Some? ==> w.clients[ch] == to.value)
  }

  function StartOf(c: Call, to: Option<User>, m: Message): Event {
    if to.Some? then StartSend(c, to.value, m) else StartBroadcast(c, m)
  }

  /**
    Whom a call reaches, however long it runs and whatever runs beside it: nothing is offered to a
    channel that was not registered when it began, for that user if it names one, and once it has
    ended each of those has been offered its message, once.
   */
  lemma ReachesExactly(w: World, c: Call, to: Option<User>, m: Message, es: seq<Event>, ch: Chan)
    requires MapOk(w) && Tied(w) && Legal(w, StartOf(c, to, m))
    requires LegalRun(After(w, StartOf(c, to, m)), es)
    requires ch in Final(After(w, StartOf(c, to, m)), es).chans
    ensures var w' := Final(After(w, StartOf(c, to, m)), es);
            var offers := w'.chans[ch].offers;
            && (forall i :: 0 <= i < |offers| && offers[i].call == c ==>
                  Reaches(w, to, ch) && offers[i].message == m)
            && (forall i, j :: 0 <= i < j < |offers| ==> !(offers[i].call == c == offers[j].call))
            && (c !in w'.senders && Reaches(w, to, ch) ==> exists i :: 0 <= i < |offers| && offers[i].call == c)
  {
    var e := StartOf(c, to, m);
    var w0 := After(w, e);
    StepKeepsMap(w, e);
    StepKeepsTie(w, e);
    RunKeepsTie(w0, es);
    RunsOn(w0, es, c);
    var w' := Final(w0, es);
    var offers := w'.chans[ch].offers;
    assert OffersOk(w', ch, offers);
    assert ch in w0.calls[c].addressees <==> Reaches(w, to, ch);
    forall i | 0 <= i < |offers| && offers[i].call == c ensures Reaches(w, to, ch) {
      Addressed(w', ch, i);
    }
    if c !in w'.senders && Reaches(w, to, ch) {
      Finished(w', ch, c);
    }
  }

  /** The calls whose messages were accepted, in the order they were offered. */
  function AcceptedCalls(offers: seq<Offer>): seq<Call> {
    if offers == [] then []
    else
      var n := |offers| - 1;
      AcceptedCalls(offers[..n]) + if offers[n].accepted then [offers[n].call] else []
  }

  /** Each accepted message comes from a call of its own. */
  lemma {:induction false} AcceptedOnce(w: World, offers: seq<Offer>)
    requires forall i, j :: 0 <= i < j < |offers| ==> offers[i].call != offers[j].call
    requires forall i :: 0 <= i < |offers| ==>
               offers[i].call in w.calls && offers[i].message == w.calls[offers[i].call].message
    ensures var calls := AcceptedCalls(offers);
            && |calls| == |Accepted(offers)|
            && (forall i, j :: 0 <= i < j < |calls| ==> calls[i] != calls[j])
            && (forall i :: 0 <= i < |calls| ==>
                  && calls[i] in CallsOf(offers) && calls[i] in w.calls
                  && Accepted(offers)[i] == w.calls[calls[i]].message)
  {
    if offers != [] {
      var n := |offers| - 1;
      var front, x := offers[..n], offers[n];
      AcceptedOnce(w, front);
      assert offers == front + [x];
      CallsOfMore(front, x);
      assert x.call !in CallsOf(front);
    }
  }

  // ---------- the theorems ----------

  /**
    In every run nothing panics: no channel is sent to after its close and none is closed twice.
    A channel is in the map exactly when it is open, the map stays within its bound, and once every
    handler is gone each channel has been closed exactly once.
   */
  lemma ChannelOwnership(maxClients: int, es: seq<Event>)
    requires LegalRun(Start(maxClients), es)
    ensures var w := Final(Start(maxClients), es);
            && !w.panicked
            && (forall ch :: ch in w.clients <==> ch in w.chans && w.chans[ch].open)
            && (forall ch :: ch in w.chans ==> w.chans[ch].closes <= 1)
            && (maxClients > 0 ==> |w.clients| <= maxClients)
            && ((forall ch :: ch in w.streams ==> w.streams[ch] == Gone) ==>
                  w.clients == map[] && forall ch :: ch in w.chans ==> w.chans[ch].closes == 1)
  {
    RunKeepsInv(Start(maxClients), es);
    var w := Final(Start(maxClients), es);
    MaxStays(Start(maxClients), es);
    forall ch | ch in w.chans ensures w.chans[ch].closes == if w.chans[ch].open then 0 else 1 {
      assert ChannelOk(w.chans[ch]);
    }
  }

  lemma {:induction false} MaxStays(w: World, es: seq<Event>)
    requires LegalRun(w, es)
    ensures Final(w, es).maxClients == w.maxClients
    decreases |es|
  {
    if es != [] {
      MaxStays(After(w, es[0]), es[1..]);
    }
  }

  /**
    In every run, with any number of calls under way side by side: a channel has been offered the
    message of every call that addressed it, once, but for the calls that have not come to it yet;
    and it has been offered nothing else. So a call that has ended has offered exactly once to each
    of its addressees.
   */
  lemma EachCallOnce(maxClients: int, es: seq<Event>, ch: Chan)
    requires LegalRun(Start(maxClients), es) && ch in Final(Start(maxClients), es).chans
    ensures var w := Final(Start(maxClients), es);
            var offers := w.chans[ch].offers;
            && (forall i, j :: 0 <= i < j < |offers| ==> offers[i].call != offers[j].call)
            && (forall i :: 0 <= i < |offers| ==>
                  && offers[i].call in w.calls && ch in w.calls[offers[i].call].addressees
                  && offers[i].message == w.calls[offers[i].call].message)
            && (forall c :: c in w.calls && ch in w.calls[c].addressees ==>
                  (c in CallsOf(offers) <==> !Pending(w, c, ch)))
            && (forall c :: c in w.calls && c !in w.senders && ch in w.calls[c].addressees ==>
                  c in CallsOf(offers))
  {
    RunKeepsTie(Start(maxClients), es);
    var w := Final(Start(maxClients), es);
    var offers := w.chans[ch].offers;
    assert OffersOk(w, ch, offers);
    forall i | 0 <= i < |offers| ensures ch in w.calls[offers[i].call].addressees {
      assert offers[i].call in CallsOf(offers);
    }
  }

  /** A call that began after another had ended comes after it in the offers of every channel. */
  lemma CallOrder(
    maxClients: int, es: seq<Event>, more: seq<Event>, c: Call, d: Call, ch: Chan, i: nat, j: nat)
    requires LegalRun(Start(maxClients), es) && LegalRun(Final(Start(maxClients), es), more)
    requires var w := Final(Start(maxClients), es);
             c in w.calls && c !in w.senders && d !in w.calls
    requires ch in Final(Final(Start(maxClients), es), more).chans
    requires var offers := Final(Final(Start(maxClients), es), more).chans[ch].offers;
             i < |offers| && j < |offers| && offers[i].call == c && offers[j].call == d
    ensures i < j
  {
    RunKeepsTie(Start(maxClients), es);
    var w := Final(Start(maxClients), es);
    RunKeepsTie(w, more);
    RunsOn(w, more, c);
    var w' := Final(w, more);
    Addressed(w', ch, i);
    Finished(w, ch, c);
    Unheard(w, ch, d);
    LaterOffer(w.chans[ch].offers, w'.chans[ch].offers, c, d, i, j);
  }

  /**
    In every run each client has received, in order, a prefix of the messages accepted for it. The
    k-th of them is that of the k-th accepted call; these calls are all different, each addressed
    the channel; and a message was dropped exactly when 16 accepted ones had not been received yet.
   */
  lemma DeliveryInOrder(maxClients: int, es: seq<Event>, ch: Chan)
    requires LegalRun(Start(maxClients), es) && ch in Final(Start(maxClients), es).chans
    ensures var w := Final(Start(maxClients), es);
            var c := w.chans[ch];
            var calls := AcceptedCalls(c.offers);
            && c.received <= Accepted(c.offers) && |calls| <= |c.received| + CAPACITY
            && |calls| == |Accepted(c.offers)|
            && (forall i, j :: 0 <= i < j < |calls| ==> calls[i] != calls[j])
            && (forall k :: 0 <= k < |c.received| ==>
                  && calls[k] in w.calls && ch in w.calls[calls[k]].addressees
                  && c.received[k] == w.calls[calls[k]].message)
            && forall i :: 0 <= i < |c.offers| ==>
                 (!c.offers[i].accepted <==>
                    |Accepted(c.offers[..i])| - c.offers[i].taken == CAPACITY)
  {
    RunKeepsInv(Start(maxClients), es);
    RunKeepsTie(Start(maxClients), es);
    var w := Final(Start(maxClients), es);
    var c := w.chans[ch];
    assert ChannelOk(c) && OffersOk(w, ch, c.offers);
    AcceptedOnce(w, c.offers);
    assert c.received <= Accepted(c.offers);
  }

  /** A stream is registered unless the bound is reached, and its channel starts open and empty. */
  lemma ServeMeans(w: World, ch: Chan, u: User)
    requires Legal(w, Serve(ch, u))
    ensures var w' := After(w, Serve(ch, u));
            if w.maxClients > 0 && |w.clients| >= w.maxClients then w' == w
            else
              && w'.clients == w.clients[ch := u] && w'.chans.Keys == w.chans.Keys + {ch}
              && w'.chans[ch] == Channel(true, [], [], [], 0)
              && forall x :: x in w.chans ==> w'.chans[x] == w.chans[x]
  {
  }

  lemma ShutStep(w: World, e: Event, ch: Chan)
    requires MapOk(w) && Legal(w, e) && ch in w.chans && !w.chans[ch].open
    ensures ch in After(w, e).chans
    ensures var c, c' := w.chans[ch], After(w, e).chans[ch];
            && !c'.open && c'.closes == c.closes && c'.offers == c.offers
            && c'.received + c'.buffer == c.received + c.buffer
  {
    if e.Receive? && e.ch == ch {
      var c := w.chans[ch];
      assert (c.received + [c.buffer[0]]) + c.buffer[1..] == c.received + c.buffer;
    }
  }

  lemma {:induction false} ShutForGood(w: World, es: seq<Event>, ch: Chan)
    requires MapOk(w) && LegalRun(w, es) && ch in w.chans && !w.chans[ch].open
    ensures ch in Final(w, es).chans && ch !in Final(w, es).clients
    ensures var c, c' := w.chans[ch], Final(w, es).chans[ch];
            && !c'.open && c'.closes == c.closes && c'.offers == c.offers
            && c'.received + c'.buffer == c.received + c.buffer
    decreases |es|
  {
    if es != [] {
      ShutStep(w, es[0], ch);
      StepKeepsMap(w, es[0]);
      ShutForGood(After(w, es[0]), es[1..], ch);
    }
  }

  /**
    Revoking a user shuts each of its channels, once, and leaves every other channel and registration
    as it is; in every continuation nothing more is offered to a channel that was shut, and its client
    can receive what was buffered by then and no more.
   */
  lemma RevokedForGood(w: World, u: User, es: seq<Event>, ch: Chan)
    requires MapOk(w) && Legal(w, RevokeUser(u)) && LegalRun(After(w, RevokeUser(u)), es) && ch in w.chans
    ensures var w1, w' := After(w, RevokeUser(u)), Final(After(w, RevokeUser(u)), es);
            if ch in w.clients && w.clients[ch] == u then
              && ch in w'.chans && ch !in w'.clients
              && var c, c' := w.chans[ch], w'.chans[ch];
                 && !c'.open && c'.closes == c.closes + 1 && c'.offers == c.offers
                 && c'.received + c'.buffer == c.received + c.buffer
            else
              && ch in w1.chans && w1.chans[ch] == w.chans[ch]
              && (ch in w.clients <==> ch in w1.clients)
              && (ch in w.clients ==> w1.clients[ch] == w.clients[ch])
  {
    StepKeepsMap(w, RevokeUser(u));
    if ch in w.clients && w.clients[ch] == u {
      ShutForGood(After(w, RevokeUser(u)), es, ch);
    }
  }

  lemma OfferOne(chans: map<Chan, Channel>, done: set<Chan>, ch: Chan, call: Call, m: Message)
    requires ch in chans && ch !in done
    ensures var now := OfferedAll(chans, done, call, m);
            now[ch := Offered(now[ch], call, m)] == OfferedAll(chans, done + {ch}, call, m)
  {
  }

  lemma CloseOne(chans: map<Chan, Channel>, gone: set<Chan>, ch: Chan)
    requires ch in chans && ch !in gone
    ensures var now := ClosedAll(chans, gone);
            now[ch := Closed(now[ch])] == ClosedAll(chans, gone + {ch})
  {
  }

  lemma OneFewer(all: set<Chan>, todo: set<Chan>, ch: Chan)
    requires ch in todo
    ensures (all - todo) + ({ch} * all) == all - (todo - {ch})
  {
  }

  lemma NotYetGone(owners: map<Chan, User>, u: User, todo: set<Chan>, ch: Chan)
    requires ch in todo && todo <= owners.Keys
    ensures var gone := Owned(owners, u) - todo;
            && ch !in gone && ch in owners - gone && (owners - gone)[ch] == owners[ch]
            && {ch} * Owned(owners, u) == if owners[ch] == u then {ch} else {}
  {
  }

  lemma RemovedTwice(owners: map<Chan, User>, a: set<Chan>, b: set<Chan>)
    ensures (owners - a) - b == owners - (a + b)
  {
  }

  /** A section under way, left alone: its own offers, in any order, until none is left. */
  ghost predicate Alone(w: World, c: Call, es: seq<Event>)
    decreases |es|
  {
    c in w.senders &&
    if es == [] then w.senders[c].todo == {}
    else
      && es[0].OfferNext? && es[0].call == c && Legal(w, es[0])
      && Alone(After(w, es[0]), c, es[1..])
  }

  /**
    Whatever order the map is walked in, a send that runs alone offers its message to each of its
    channels exactly once: the loop of Registry.Send is one such run.
   */
  lemma {:induction false} SendAlone(w: World, c: Call, es: seq<Event>)
    requires Alone(w, c, es) && w.senders[c].todo <= w.chans.Keys
    ensures LegalRun(w, es)
    ensures Final(w, es).chans == OfferedAll(w.chans, w.senders[c].todo, c, w.senders[c].message)
    decreases |es|
  {
    var s := w.senders[c];
    if es == [] {
      assert OfferedAll(w.chans, {}, c, s.message) == w.chans;
    } else {
      var ch := es[0].ch;
      SendAlone(After(w, es[0]), c, es[1..]);
      assert OfferedAll(w.chans[ch := Offered(w.chans[ch], c, s.message)], s.todo - {ch}, c, s.message)
          == OfferedAll(w.chans, s.todo, c, s.message);
    }
  }

  // ---------- the loops ----------

  class Registry {
    const maxClients: int
    var clients: map<Chan, User>
    var chans: map<Chan, Channel>

    ghost predicate Valid()
      reads this
    {
      && (forall ch :: ch in clients <==> ch in chans && chans[ch].open)
      && (maxClients > 0 ==> |clients| <= maxClients)
    }

    constructor (maxClients: int)
      ensures Valid() && this.maxClients == maxClients && clients == map[] && chans == map[]
    {
      this.maxClients, clients, chans := maxClients, map[], map[];
    }

    /** `ch <- m` with a default branch. */
    method TrySend(ch: Chan, call: Call, m: Message)
      requires ch in chans && chans[ch].open
      modifies this`chans
      ensures chans == old(chans)[ch := Offered(old(chans)[ch], call, m)]
    {
      var c := chans[ch];
      if |c.buffer| < CAPACITY {
        c := c.(buffer := c.buffer + [m], offers := c.offers + [Offer(call, m, |c.received|, true)]);
      } else {
        c := c.(offers := c.offers + [Offer(call, m, |c.received|, false)]);
      }
      chans := chans[ch := c];
    }

    method CloseChannel(ch: Chan)
      requires ch in chans && chans[ch].open
      modifies this`chans
      ensures chans == old(chans)[ch := Closed(old(chans)[ch])]
    {
      chans := chans[ch := chans[ch].(open := false, closes := chans[ch].closes + 1)];
    }

    /** The loop body of Broadcast and SendToUser. */
    method OfferIf(call: Call, to: Option<User>, ch: Chan, m: Message,
                   ghost before: map<Chan, Channel>, ghost done: set<Chan>)
      requires Valid() && ch in clients && ch !in done && chans == OfferedAll(before, done, call, m)
      modifies this`chans
      ensures Valid() && chans == OfferedAll(before, done + ({ch} * Addressees(clients, to)), call, m)
    {
      if to.None? || clients[ch] == to.value {
        OfferOne(before, done, ch, call, m);
        TrySend(ch, call, m);
        assert {ch} * Addressees(clients, to) == {ch};
      } else {
        assert done + ({ch} * Addressees(clients, to)) == done;
      }
    }

    /** The loop of Broadcast and, with an owner given, of SendToUser. */
    method Send(call: Call, to: Option<User>, m: Message)
      requires Valid()
      modifies this`chans
      ensures Valid() && chans == OfferedAll(old(chans), Addressees(clients, to), call, m)
    {
      var todo := clients.Keys;
      ghost var before, all, done: set<Chan> := chans, Addressees(clients, to), {};
      assert OfferedAll(before, {}, call, m) == before;
      while todo != {}
        invariant Valid() && todo <= clients.Keys && done == all - todo
        invariant chans == OfferedAll(before, done, call, m)
        decreases |todo|
      {
        var ch :| ch in todo;
        OfferIf(call, to, ch, m, before, done);
        OneFewer(all, todo, ch);
        todo, done := todo - {ch}, done + ({ch} * all);
      }
      assert all - {} == all;
    }

    /** The loop body of RevokeUser. */
    method EvictIf(u: User, ch: Chan, ghost before: map<Chan, Channel>, ghost gone: set<Chan>)
      returns (ghost shut: set<Chan>)
      requires Valid() && ch in clients && ch !in gone && chans == ClosedAll(before, gone)
      modifies this
      ensures Valid() && shut == if old(clients)[ch] == u then {ch} else {}
      ensures clients == old(clients) - shut && chans == ClosedAll(before, gone + shut)
    {
      if clients[ch] == u {
        CloseOne(before, gone, ch);
        FewerClients(clients, {ch});
        CloseChannel(ch);
        clients := clients - {ch};
        return {ch};
      } else {
        assert gone + {} == gone && clients - {} == clients;
        return {};
      }
    }

    /** RevokeUser: every channel of the user is closed once and leaves the map. */
    method Revoke(u: User)
      requires Valid()
      modifies this
      ensures Valid()
      ensures clients == old(clients) - Owned(old(clients), u)
      ensures chans == ClosedAll(old(chans), Owned(old(clients), u))
    {
      var todo := clients.Keys;
      ghost var owners, before, mine, gone: set<Chan> := clients, chans, Owned(clients, u), {};
      assert clients - {} == clients && ClosedAll(before, {}) == before;
      while todo != {}
        invariant Valid() && todo <= owners.Keys && gone == mine - todo
        invariant clients == owners - gone && chans == ClosedAll(before, gone)
        decreases |todo|
      {
        var ch :| ch in todo;
        NotYetGone(owners, u, todo, ch);
        ghost var shut := EvictIf(u, ch, before, gone);
        OneFewer(mine, todo, ch);
        RemovedTwice(owners, gone, shut);
        todo, gone := todo - {ch}, gone + shut;
      }
      assert mine - {} == mine;
    }

    /** Registration in ServeHTTPFor. */
    method Register(ch: Chan, u: User) returns (ok: bool)
      requires Valid() && ch !in chans
      modifies this
      ensures Valid() && ok == !(maxClients > 0 && |old(clients)| >= maxClients)
      ensures clients == if ok then old(clients)[ch := u] else old(clients)
      ensures chans == if ok then old(chans)[ch := NEW_CHANNEL] else old(chans)
    {
      if maxClients > 0 && |clients| >= maxClients { return false; }
      assert clients[ch := u].Keys == clients.Keys + {ch};
      clients, chans := clients[ch := u], chans[ch := NEW_CHANNEL];
      return true;
    }

    /** The deferred cleanup of ServeHTTPFor. */
    method Unregister(ch: Chan)
      requires Valid() && ch in chans
      modifies this
      ensures Valid() && clients == old(clients) - {ch}
      ensures chans == if ch in old(clients) then old(chans)[ch := Closed(old(chans)[ch])]
                       else old(chans)
    {
      FewerClients(clients, {ch});
      if ch in clients {
        CloseChannel(ch);
        clients := clients - {ch};
      }
    }
  }
}
