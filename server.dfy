/**
 * The price server: per-ticker prices and histories advanced once per tick,
 * rooms joined and left by socket handlers, and the identity each socket
 * announces. Prices are whole cents (the JavaScript server's dollars times 100).
 */
module PriceServer {
  import opened Wrappers
  import opened Bounded
  import opened Pricing
  import opened Rooms

  type Ticker = string

  /** The supported tickers, in the order the tick loop visits them. */
  const Tickers: seq<Ticker> := ["GOOG", "TSLA", "AMZN", "META", "NVDA"]

  /** Baseline prices in cents: 1400, 300, 3200, 300 and 500 dollars. */
  const InitialPrice: map<Ticker, int> :=
    map["GOOG" := 140000, "TSLA" := 30000, "AMZN" := 320000, "META" := 30000, "NVDA" := 50000]

  /** How many prices the server keeps per ticker. */
  const HistoryLength: nat := 60

  /** How many of them a new subscriber receives. */
  const SnapshotLength: nat := 30

  /** A `price_update` event; prices and changes in cents, `pctChange` in hundredths of a percent. */
  datatype PriceUpdate = PriceUpdate(ticker: Ticker, price: int, change: int, pctChange: int, timestamp: int)

  /** The `price_update` event for ticker `t` after one tick from `previous` cents with draw `z`. */
  function UpdateEvent(t: Ticker, previous: int, z: real, now: int): (e: PriceUpdate)
    ensures e.ticker == t && e.price >= 1 && e.change == e.price - previous && e.timestamp == now
    ensures e.price == NextPrice(previous, z) && e.pctChange == PctChange(previous, e.change)
  {
    var m := Advance(previous, z);
    PriceUpdate(t, m.next, m.change, m.pctChange, now)
  }

  /** `io.to(room).emit("price_update", event)` */
  datatype Broadcast = Broadcast(room: string, event: PriceUpdate)

  /** The `subscribed` reply sent to the subscribing socket alone. */
  datatype Snapshot = Snapshot(ticker: Ticker, price: int, history: seq<int>)

  /** What an `identify` message carries: nothing at all, or an object whose `email` may be missing. */
  datatype IdentifyPayload = NoPayload | Payload(email: Option<string>)

  /** `!ticker` fails for a missing ticker and for the empty string. */
  function Requested(ticker: Option<string>): (b: bool)
    ensures b <==> ticker != None && ticker != Some("")
  {
    ticker.Some? && ticker.value != ""
  }

  /** `payload && payload.email ? payload.email : "unknown"` */
  function IdentityOf(payload: IdentifyPayload): (e: string)
    ensures e != ""
    ensures e != "unknown" ==> payload == Payload(Some(e))
    ensures payload.Payload? && payload.email.Some? && payload.email.value != "" ==> e == payload.email.value
  {
    match payload
    case Payload(Some(e)) => if e != "" then e else "unknown"
    case _ => "unknown"
  }

  /**
   * One ticker's state: a price of at least one cent and a history of one to
   * 60 prices of at least one cent whose last entry is the current price.
   */
  predicate TickerOk(p: int, h: seq<int>) {
    && p >= 1
    && 1 <= |h| <= HistoryLength
    && h[|h| - 1] == p
    && (forall v :: v in h ==> v >= 1)
  }

  /** Pushing a new price of at least one cent keeps one ticker's state well-formed. */
  lemma PushKeepsTickerOk(p: int, h: seq<int>, next: int)
    requires TickerOk(p, h) && next >= 1
    ensures TickerOk(next, PushCapped(h, next, HistoryLength))
  {
    PushCappedValues(h, next, HistoryLength);
  }

  /**
   * The price tables are well-formed for the tick order `order`: it names
   * every ticker with a price, each once, and each such ticker has a
   * well-formed price and history.
   */
  ghost predicate TablesOk(price: map<Ticker, int>, history: map<Ticker, seq<int>>, order: seq<Ticker>) {
    && (forall j, k :: 0 <= j < k < |order| ==> order[j] != order[k])
    && (forall j :: 0 <= j < |order| ==> order[j] in price)
    && (forall t {:trigger t in order} :: t in price ==> t in order)
    && history.Keys == price.Keys
    && (forall t :: t in price ==> TickerOk(price[t], history[t]))
  }

  /** No room is empty, and every room is the room of a ticker of `order`. */
  ghost predicate RoomsOk(rooms: RoomMap, order: seq<Ticker>) {
    NoEmptyRooms(rooms) && rooms.Keys <= RoomsOf(order)
  }

  /**
   * A tick that gives every ticker of `order` a new price of at least one
   * cent, pushed onto its own history, keeps the tables well-formed.
   */
  lemma TickKeepsTablesOk(p0: map<Ticker, int>, h0: map<Ticker, seq<int>>,
                          p1: map<Ticker, int>, h1: map<Ticker, seq<int>>, order: seq<Ticker>)
    requires TablesOk(p0, h0, order)
    requires p1.Keys == p0.Keys && h1.Keys == h0.Keys
    requires forall j :: 0 <= j < |order| ==>
      p1[order[j]] >= 1 && h1[order[j]] == PushCapped(h0[order[j]], p1[order[j]], HistoryLength)
    ensures TablesOk(p1, h1, order)
  {
    forall t | t in p1 ensures TickerOk(p1[t], h1[t]) {
      assert t in order;
      var j :| 0 <= j < |order| && order[j] == t;
      PushKeepsTickerOk(p0[t], h0[t], p1[t]);
    }
  }

  /** The tick order names every ticker with a baseline price, each exactly once. */
  lemma TickersMatchPrices()
    ensures forall j, k :: 0 <= j < k < |Tickers| ==> Tickers[j] != Tickers[k]
    ensures forall j :: 0 <= j < |Tickers| ==> Tickers[j] in InitialPrice
    ensures forall t :: t in InitialPrice ==> t in Tickers
  {
  }

  /**
   * `updatePrices` on the price and history tables: each ticker of `order`,
   * in turn, advances from its current price with its own draw `zs[i]`, has
   * the new price pushed onto its history (the oldest entry evicted past 60)
   * and gets one `price_update` addressed to its room, stamped with its own
   * clock reading `nows[i]`. Since no ticker is
   * visited twice, each advances exactly once and from its starting price.
   */
  method TickAll(price: map<Ticker, int>, history: map<Ticker, seq<int>>,
                 order: seq<Ticker>, zs: seq<real>, nows: seq<int>)
    returns (price': map<Ticker, int>, history': map<Ticker, seq<int>>, sent: seq<Broadcast>)
    requires |zs| == |order| && |nows| == |order|
    requires forall j :: 0 <= j < |order| ==> order[j] in price && order[j] in history
    requires forall j, k :: 0 <= j < k < |order| ==> order[j] != order[k]
    ensures price'.Keys == price.Keys && history'.Keys == history.Keys
    ensures |sent| == |order|
    ensures forall j :: 0 <= j < |order| ==>
      && sent[j] == Broadcast(RoomOf(order[j]), UpdateEvent(order[j], price[order[j]], zs[j], nows[j]))
      && price'[order[j]] == sent[j].event.price
      && history'[order[j]] == PushCapped(history[order[j]], price'[order[j]], HistoryLength)
  {
    price', history', sent := price, history, [];
    for i := 0 to |order|
      invariant price'.Keys == price.Keys && history'.Keys == history.Keys
      invariant |sent| == i
      invariant forall j :: 0 <= j < i ==>
        && sent[j] == Broadcast(RoomOf(order[j]), UpdateEvent(order[j], price[order[j]], zs[j], nows[j]))
        && price'[order[j]] == sent[j].event.price
        && history'[order[j]] == PushCapped(history[order[j]], price'[order[j]], HistoryLength)
      invariant forall j :: i <= j < |order| ==>
        price'[order[j]] == price[order[j]] && history'[order[j]] == history[order[j]]
    {
      var t := order[i];
      var e := UpdateEvent(t, price'[t], zs[i], nows[i]);
      price' := price'[t := e.price];
      history' := history'[t := PushCapped(history'[t], e.price, HistoryLength)];
      sent := sent + [Broadcast(RoomOf(t), e)];
    }
  }

  /**
   * The property names a plain JavaScript object inherits from
   * `Object.prototype` (including the legacy accessors of Annex B of
   * ECMA-262): `TICKERS[name]` finds a function or an object for each.
   */
  const InheritedNames: set<string> := {
    "constructor", "hasOwnProperty", "isPrototypeOf", "propertyIsEnumerable",
    "toString", "toLocaleString", "valueOf", "__proto__",
    "__defineGetter__", "__defineSetter__", "__lookupGetter__", "__lookupSetter__"
  }

  /** What one `subscribe` message leads to. */
  datatype SubscribeOutcome =
    | Ignored
    | Replied(rooms: RoomMap, reply: Snapshot)
      /** the socket joined the room, then the handler threw before replying */
    | Threw(rooms: RoomMap)

  /**
   * The `subscribe` handler as written: its guard `!TICKERS[ticker]` also
   * lets through every inherited name, for which the socket joins
   * `TICKER_${ticker}` and then `history[ticker].slice` is not a function,
   * so the handler throws before it replies.
   */
  function SubscribeAsWritten(rooms: RoomMap, price: map<Ticker, int>, history: map<Ticker, seq<int>>,
                              sid: SocketId, ticker: Option<string>): (o: SubscribeOutcome)
    requires price.Keys <= history.Keys
    ensures o.Ignored? <==> !Requested(ticker) || (ticker.value !in price && ticker.value !in InheritedNames)
    ensures !o.Ignored? ==> o.rooms == Join(rooms, RoomOf(ticker.value), sid)
    ensures o.Replied? <==> Requested(ticker) && ticker.value in price
  {
    if !Requested(ticker) then Ignored
    else
      var t := ticker.value;
      if t in price then Replied(Join(rooms, RoomOf(t), sid), Snapshot(t, price[t], LastN(history[t], SnapshotLength)))
      else if t in InheritedNames then Threw(Join(rooms, RoomOf(t), sid))
      else Ignored
  }

  /**
   * With the supported tickers, a `subscribe` for "toString" puts the socket
   * in a room that belongs to no supported ticker and sends it no reply.
   */
  lemma InheritedNameOpensStrayRoom(rooms: RoomMap, history: map<Ticker, seq<int>>, sid: SocketId)
    requires InitialPrice.Keys <= history.Keys
    ensures var o := SubscribeAsWritten(rooms, InitialPrice, history, sid, Some("toString"));
      && o.Threw?
      && sid in Members(o.rooms, "TICKER_toString")
      && "TICKER_toString" !in RoomsOf(Tickers)
  {
    assert "toString" !in InitialPrice && "toString" !in Tickers;
    assert RoomOf("toString") == "TICKER_toString";
    RoomsOfExact("toString", Tickers);
  }

  class Server {
    /** `Object.keys(TICKERS)`: the order in which a tick visits the tickers */
    const order: seq<Ticker>
    /** `TICKERS[t].price`, in cents; its keys are the supported tickers */
    var price: map<Ticker, int>
    /** `history[t]`, oldest first */
    var history: map<Ticker, seq<int>>
    /** Room membership, shared by all sockets */
    var rooms: RoomMap
    /** `socket.data.email`, per socket */
    var email: map<SocketId, string>

    /**
     * The tick order lists the supported tickers, each once; each has a
     * well-formed price and history; no room is empty, and every room is the
     * room of a supported ticker.
     */
    ghost predicate Valid()
      reads this
    {
      TablesOk(price, history, order) && RoomsOk(rooms, order)
    }

    /** `!TICKERS[ticker]` is false exactly for the supported tickers (but see `SubscribeAsWritten`). */
    function IsSupported(t: string): (b: bool)
      reads this
      ensures Valid() ==> (b <==> t in order)
    {
      t in price
    }

    /** `GET /`: the supported tickers, each listed once. */
    function Supported(): (s: seq<Ticker>)
      requires Valid()
      reads this
      ensures forall t :: t in s <==> IsSupported(t)
      ensures forall j, k :: 0 <= j < k < |s| ==> s[j] != s[k]
    {
      order
    }

    /** Start-up: baseline prices, a one-entry history per ticker, no rooms, no identities. */
    constructor ()
      ensures Valid()
      ensures order == Tickers && price == InitialPrice
      ensures history == map t | t in InitialPrice :: [InitialPrice[t]]
      ensures rooms == map[] && email == map[]
    {
      order := Tickers;
      price := InitialPrice;
      history := map t | t in InitialPrice :: [InitialPrice[t]];
      rooms := map[];
      email := map[];
      TickersMatchPrices();
    }

    /**
     * `updatePrices`: every supported ticker advances once, as `TickAll`
     * states; rooms and identities are untouched and the state stays valid.
     */
    method UpdatePrices(zs: seq<real>, nows: seq<int>) returns (sent: seq<Broadcast>)
      requires Valid() && |zs| == |order| && |nows| == |order|
      modifies this
      ensures Valid()
      ensures price.Keys == old(price).Keys
      ensures |sent| == |order|
      ensures forall j :: 0 <= j < |order| ==>
        && sent[j] == Broadcast(RoomOf(order[j]), UpdateEvent(order[j], old(price)[order[j]], zs[j], nows[j]))
        && price[order[j]] == sent[j].event.price
        && history[order[j]] == PushCapped(old(history)[order[j]], price[order[j]], HistoryLength)
      ensures rooms == old(rooms) && email == old(email)
    {
      ghost var p0, h0 := price, history;
      price, history, sent := TickAll(price, history, order, zs, nows);
      TickKeepsTablesOk(p0, h0, price, history, order);
    }

    /**
     * The `subscribe` handler. A missing, empty or unsupported ticker is
     * ignored: no room changes and nothing is sent. Otherwise the socket joins
     * the ticker's room and is sent the current price with the last (up to)
     * 30 history entries, oldest first, which end at that price.
     */
    method Subscribe(sid: SocketId, ticker: Option<string>) returns (reply: Option<Snapshot>)
      requires Valid()
      modifies this
      ensures Valid()
      ensures price == old(price) && history == old(history) && email == old(email)
      ensures Requested(ticker) && IsSupported(ticker.value) ==>
        var t := ticker.value;
        && rooms == Join(old(rooms), RoomOf(t), sid)
        && reply == Some(Snapshot(t, price[t], LastN(history[t], SnapshotLength)))
      ensures !(Requested(ticker) && IsSupported(ticker.value)) ==> rooms == old(rooms) && reply == None
      ensures reply.Some? ==>
        var h := reply.value.history;
        1 <= |h| <= SnapshotLength && h[|h| - 1] == reply.value.price
    {
      if !Requested(ticker) || !IsSupported(ticker.value) {
        return None;
      }
      var t := ticker.value;
      rooms := Join(rooms, RoomOf(t), sid);
      reply := Some(Snapshot(t, price[t], LastN(history[t], SnapshotLength)));
    }

    /**
     * The `unsubscribe` handler. A missing or empty ticker is ignored;
     * otherwise the socket leaves `TICKER_${ticker}` whether or not it was a
     * member and whether or not the ticker is supported. No other room changes.
     */
    method Unsubscribe(sid: SocketId, ticker: Option<string>)
      requires Valid()
      modifies this
      ensures Valid()
      ensures price == old(price) && history == old(history) && email == old(email)
      ensures Requested(ticker) ==> rooms == Leave(old(rooms), RoomOf(ticker.value), sid)
      ensures !Requested(ticker) ==> rooms == old(rooms)
    {
      if !Requested(ticker) {
        return;
      }
      rooms := Leave(rooms, RoomOf(ticker.value), sid);
    }

    /** The `identify` handler: records the socket's email, or "unknown". */
    method Identify(sid: SocketId, payload: IdentifyPayload)
      requires Valid()
      modifies this
      ensures Valid()
      ensures price == old(price) && history == old(history) && rooms == old(rooms)
      ensures email == old(email)[sid := IdentityOf(payload)]
    {
      email := email[sid := IdentityOf(payload)];
    }
  }
}
