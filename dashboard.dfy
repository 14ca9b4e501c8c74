/**
 * The dashboard page's state: the user's subscription list (kept per user in
 * storage as JSON), the latest price shown per ticker, whether the socket has
 * connected, and the messages the page has sent over the socket.
 */
module Dashboard {
  import opened Wrappers
  import opened Json
  import opened Storage

  /** A message the page emits on the socket. */
  datatype Emit = SubscribeMsg(ticker: string) | UnsubscribeMsg(ticker: string)

  /** What the page shows for one ticker: the last price in dollars and its change in percent. */
  datatype Shown = Shown(price: real, pctChange: real)

  /** `s.filter(t => t !== ticker)` */
  function Without(s: seq<string>, ticker: string): (r: seq<string>)
    ensures |r| <= |s|
    ensures forall u :: u in r <==> u in s && u != ticker
  {
    if s == [] then []
    else (if s[0] == ticker then [] else [s[0]]) + Without(s[1..], ticker)
  }

  /**
   * Filtering works element by element: it distributes over concatenation,
   * so it removes every occurrence and keeps the others in their order.
   */
  lemma {:induction false} WithoutDistributes(a: seq<string>, b: seq<string>, ticker: string)
    ensures Without(a + b, ticker) == Without(a, ticker) + Without(b, ticker)
  {
    if a == [] {
      assert a + b == b;
    } else {
      var head := if a[0] == ticker then [] else [a[0]];
      assert (a + b)[0] == a[0] && (a + b)[1..] == a[1..] + b;
      assert Without(a + b, ticker) == head + Without(a[1..] + b, ticker);
      WithoutDistributes(a[1..], b, ticker);
      assert head + (Without(a[1..], ticker) + Without(b, ticker))
          == (head + Without(a[1..], ticker)) + Without(b, ticker);
    }
  }

  /** Filtering out a ticker that is not there changes nothing. */
  lemma {:induction false} WithoutAbsent(s: seq<string>, ticker: string)
    requires ticker !in s
    ensures Without(s, ticker) == s
  {
    if s != [] {
      WithoutAbsent(s[1..], ticker);
      assert [s[0]] + s[1..] == s;
    }
  }

  /** The list after `toggleSubscribe(ticker)`: removed when present, appended at the end when absent. */
  function Toggled(s: seq<string>, ticker: string): (r: seq<string>)
    ensures ticker in r <==> ticker !in s
    ensures |r| <= |s| + 1
  {
    if ticker in s then Without(s, ticker) else s + [ticker]
  }

  /** Toggling an absent ticker twice gives back the list it started from. */
  lemma ToggleTwice(s: seq<string>, ticker: string)
    requires ticker !in s
    ensures Toggled(Toggled(s, ticker), ticker) == s
  {
    WithoutDistributes(s, [ticker], ticker);
    WithoutAbsent(s, ticker);
    assert Without([ticker], ticker) == [];
  }

  /** A toggle flips the toggled ticker's membership and leaves every other ticker's alone. */
  lemma ToggleMembership(s: seq<string>, ticker: string, u: string)
    ensures u == ticker ==> (u in Toggled(s, ticker) <==> ticker !in s)
    ensures u != ticker ==> (u in Toggled(s, ticker) <==> u in s)
  {
  }

  /** No ticker appears twice. */
  predicate NoDup(s: seq<string>) {
    forall i, j :: 0 <= i < j < |s| ==> s[i] != s[j]
  }

  /** Filtering keeps a list free of duplicates. */
  lemma {:induction false} WithoutKeepsNoDup(s: seq<string>, ticker: string)
    requires NoDup(s)
    ensures NoDup(Without(s, ticker))
  {
    if s != [] {
      WithoutKeepsNoDup(s[1..], ticker);
      var rest := Without(s[1..], ticker);
      forall k | 0 <= k < |s[1..]|
        ensures s[1..][k] != s[0]
      {
        assert s[1..][k] == s[k + 1];
      }
      assert s[0] !in rest;
    }
  }

  /** Toggling keeps a list free of duplicates. */
  lemma ToggleKeepsNoDup(s: seq<string>, ticker: string)
    requires NoDup(s)
    ensures NoDup(Toggled(s, ticker))
  {
    if ticker in s {
      WithoutKeepsNoDup(s, ticker);
    }
  }

  /** One `subscribe` message per ticker, in list order. */
  function SubscribeAll(tickers: seq<string>): (r: seq<Emit>)
    ensures |r| == |tickers|
    ensures forall i :: 0 <= i < |tickers| ==> r[i] == SubscribeMsg(tickers[i])
  {
    seq(|tickers|, i requires 0 <= i < |tickers| => SubscribeMsg(tickers[i]))
  }

  /**
   * The saved list as the page reads it: `raw ? JSON.parse(raw) : []`, with
   * a parse failure caught and read as the empty list.
   */
  function SavedList(raw: Option<string>): (r: seq<string>)
    ensures raw.None? || raw == Some("") ==> r == []
    ensures raw.Some? && DecodeList(raw.value).None? ==> r == []
    ensures raw.Some? && raw.value != "" && DecodeList(raw.value).Some? ==> r == DecodeList(raw.value).value
  {
    if raw.None? || raw.value == "" then []
    else match DecodeList(raw.value)
      case Some(xs) => xs
      case None => []
  }

  /** The signed-in user's address as the page reads it: `getItem(...) || ""`. */
  function CurrentEmail(items: map<string, string>): (e: string)
    ensures EmailKey in items ==> e == items[EmailKey]
    ensures EmailKey !in items ==> e == ""
  {
    if EmailKey in items then items[EmailKey] else ""
  }

  /** The subscription list the page starts from, for the given storage. */
  function SavedFor(items: map<string, string>): (r: seq<string>)
    ensures SubsKey(CurrentEmail(items)) !in items ==> r == []
  {
    var key := SubsKey(CurrentEmail(items));
    SavedList(if key in items then Some(items[key]) else None)
  }

  /** Storage after the page saves `subscriptions` for the current user. */
  function Persisted(items: map<string, string>, subscriptions: seq<string>): (r: map<string, string>)
    ensures r.Keys == items.Keys + {SubsKey(CurrentEmail(items))}
    ensures r[SubsKey(CurrentEmail(items))] == EncodeList(subscriptions)
    ensures forall k :: k in items && k != SubsKey(CurrentEmail(items)) ==> r[k] == items[k]
  {
    items[SubsKey(CurrentEmail(items)) := EncodeList(subscriptions)]
  }

  /** A saved list is what the next visit of the same user starts from. */
  lemma PersistedIsRestored(items: map<string, string>, subscriptions: seq<string>)
    ensures SavedFor(Persisted(items, subscriptions)) == subscriptions
  {
    var after := Persisted(items, subscriptions);
    assert CurrentEmail(after) == CurrentEmail(items);
    DecodeEncodeList(subscriptions);
  }

  /** The `initial` a card is given: `(prices[t] && prices[t].price) || 0`. */
  function CardInitial(prices: map<string, Shown>, ticker: string): (r: real)
    ensures r != 0.0 <==> ticker in prices && prices[ticker].price != 0.0
    ensures r != 0.0 ==> r == prices[ticker].price
  {
    if ticker in prices && prices[ticker].price != 0.0 then prices[ticker].price else 0.0
  }

  class Dashboard {
    var socketReady: bool
    var subscriptions: seq<string>
    var prices: map<string, Shown>
    var sent: seq<Emit>

    /** The page's first render, reading the saved list from storage. */
    constructor(store: LocalStorage)
      ensures !socketReady && prices == map[] && sent == []
      ensures subscriptions == SavedFor(store.items)
    {
      var email := store.GetItem(EmailKey);
      var raw := store.GetItem(SubsKey(if email.Some? then email.value else ""));
      socketReady := false;
      subscriptions := SavedList(raw);
      prices := map[];
      sent := [];
    }

    /**
     * The socket's `connect` event. The first one makes the socket ready,
     * which re-sends `subscribe` for every saved ticker in list order; a
     * later one changes nothing, so the re-subscribe pass never runs twice.
     */
    method OnConnect()
      modifies this
      ensures socketReady
      ensures subscriptions == old(subscriptions) && prices == old(prices)
      ensures old(socketReady) ==> sent == old(sent)
      ensures !old(socketReady) ==> sent == old(sent) + SubscribeAll(subscriptions)
    {
      if socketReady {
        return;
      }
      socketReady := true;
      var out := sent;
      var i := 0;
      while i < |subscriptions|
        invariant 0 <= i <= |subscriptions|
        invariant out == old(sent) + SubscribeAll(subscriptions[..i])
      {
        out := out + [SubscribeMsg(subscriptions[i])];
        i := i + 1;
      }
      sent := out;
    }

    /** A `subscribed` reply: the ticker's entry becomes the reply's price with a change of 0. */
    method OnSubscribed(ticker: string, price: real)
      modifies this
      ensures prices == old(prices)[ticker := Shown(price, 0.0)]
      ensures socketReady == old(socketReady) && subscriptions == old(subscriptions) && sent == old(sent)
    {
      prices := prices[ticker := Shown(price, 0.0)];
    }

    /** A `price_update` event: the ticker's entry becomes the event's price and change. */
    method OnPriceUpdate(ticker: string, price: real, pctChange: real)
      modifies this
      ensures prices == old(prices)[ticker := Shown(price, pctChange)]
      ensures socketReady == old(socketReady) && subscriptions == old(subscriptions) && sent == old(sent)
    {
      prices := prices[ticker := Shown(price, pctChange)];
    }

    /**
     * `toggleSubscribe(ticker)`: an absent ticker is subscribed and appended,
     * a present one unsubscribed and filtered out.
     */
    method ToggleSubscribe(ticker: string)
      modifies this
      ensures subscriptions == Toggled(old(subscriptions), ticker)
      ensures ticker !in old(subscriptions) ==> sent == old(sent) + [SubscribeMsg(ticker)]
      ensures ticker in old(subscriptions) ==> sent == old(sent) + [UnsubscribeMsg(ticker)]
      ensures socketReady == old(socketReady) && prices == old(prices)
    {
      if ticker !in subscriptions {
        sent := sent + [SubscribeMsg(ticker)];
        subscriptions := subscriptions + [ticker];
      } else {
        sent := sent + [UnsubscribeMsg(ticker)];
        subscriptions := Without(subscriptions, ticker);
      }
    }

    /** The effect that runs after every change of the list: it saves the list for the current user. */
    method Persist(store: LocalStorage)
      modifies store
      ensures store.items == Persisted(old(store.items), subscriptions)
    {
      var email := store.GetItem(EmailKey);
      store.SetItem(SubsKey(if email.Some? then email.value else ""), EncodeList(subscriptions));
    }
  }

  /** On the page's first render no price has arrived, so every card is given an `initial` of 0. */
  lemma FirstRenderCardsUnseeded(ticker: string)
    ensures CardInitial(map[], ticker) == 0.0
  {
  }
}
