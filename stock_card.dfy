/**
 * One ticker's card on the dashboard: the price and change it shows, and the
 * sparkline history it keeps (seeded from the price the card was mounted
 * with, then one jittered point per price update, at most 40 points), and
 * the path it draws through that history.
 */
module Card {
  import opened Wrappers
  import opened Bounded

  /** Points a non-zero `initial` seeds the sparkline with. */
  const SeedLength: nat := 30
  /** Points the sparkline keeps. */
  const HistoryCap: nat := 40

  /** The jitter `(r - 0.5) * 1.2` for a uniform draw `r` in [0, 1). */
  function Noise(r: real): (n: real)
    requires 0.0 <= r < 1.0
    ensures -0.6 <= n < 0.6
  {
    (r - 0.5) * 1.2
  }

  /** The history a card starts with: thirty copies of a non-zero `initial`, none otherwise. */
  function Seed(initial: real): (h: seq<real>)
    ensures initial == 0.0 ==> h == []
    ensures initial != 0.0 ==> |h| == SeedLength && forall i :: 0 <= i < |h| ==> h[i] == initial
  {
    if initial != 0.0 then seq(SeedLength, _ => initial) else []
  }

  /**
   * One command of the sparkline's path, in data values (the scaling to
   * canvas pixels is not modelled): a move to the first value, then a curve
   * from each value to the next.
   */
  datatype PathOp = MoveTo(to: real) | CurveTo(from: real, to: real)

  /** Command `k` of the path over `data`. */
  function Op(data: seq<real>, k: nat): (op: PathOp)
    requires k < |data|
    ensures op.MoveTo? <==> k == 0
    ensures op.to == data[k]
    ensures op.CurveTo? ==> op.from == data[k - 1]
  {
    if k == 0 then MoveTo(data[0]) else CurveTo(data[k - 1], data[k])
  }

  /** The commands `draw()` issues for a history: none for fewer than two points, else one per point. */
  function Path(data: seq<real>): (path: seq<PathOp>)
    ensures |data| < 2 ==> path == []
    ensures |data| >= 2 ==> |path| == |data| && forall k :: 0 <= k < |data| ==> path[k] == Op(data, k)
  {
    if |data| < 2 then [] else seq(|data|, k requires 0 <= k < |data| => Op(data, k))
  }

  /**
   * A drawn path visits every value of the history in order, once, and is
   * unbroken: it starts with a move to the oldest value and each curve
   * starts where the previous command ended.
   */
  lemma PathFollowsHistory(data: seq<real>)
    requires |data| >= 2
    ensures Path(data)[0] == MoveTo(data[0])
    ensures forall k :: 0 <= k < |data| ==> Path(data)[k].to == data[k]
    ensures forall k :: 0 < k < |data| ==> Path(data)[k].CurveTo? && Path(data)[k].from == Path(data)[k - 1].to
  {
  }

  class StockCard {
    const ticker: string
    var price: real
    var pct: real
    var history: seq<real>

    /** The sparkline never holds more than its capacity. */
    predicate Valid()
      reads this
    {
      |history| <= HistoryCap
    }

    /** Mounting the card: it shows `initial || 0` and a change of 0, and seeds the sparkline. */
    constructor(ticker: string, initial: real)
      ensures Valid()
      ensures this.ticker == ticker && price == initial && pct == 0.0
      ensures history == Seed(initial)
    {
      this.ticker := ticker;
      price := initial;
      pct := 0.0;
      history := Seed(initial);
    }

    /**
     * The card's `price_update_<ticker>` handler: it shows the event's
     * price and change and pushes the price plus jitter `Noise(r)` into the
     * capped history.
     */
    method OnPriceUpdate(newPrice: real, pctChange: real, r: real)
      requires Valid()
      requires 0.0 <= r < 1.0
      modifies this
      ensures Valid()
      ensures price == newPrice && pct == pctChange
      ensures history == PushCapped(old(history), newPrice + Noise(r), HistoryCap)
    {
      price := newPrice;
      pct := pctChange;
      history := PushCapped(history, newPrice + Noise(r), HistoryCap);
    }

    /**
     * `draw()`: with no canvas mounted nothing happens; otherwise the canvas
     * is cleared and, when the history has two points or more, the path
     * through it is drawn command by command.
     */
    method Draw(canvasMounted: bool) returns (drawn: Option<seq<PathOp>>)
      ensures !canvasMounted ==> drawn == None
      ensures canvasMounted ==> drawn == Some(Path(history))
    {
      if !canvasMounted {
        return None;
      }
      var data := history;
      if |data| < 2 {
        return Some([]);
      }
      var ops: seq<PathOp> := [];
      var i := 0;
      while i < |data|
        invariant 0 <= i <= |data|
        invariant |ops| == i && forall k :: 0 <= k < i ==> ops[k] == Op(data, k)
      {
        ops := ops + [Op(data, i)];
        i := i + 1;
      }
      assert ops == Path(data);
      return Some(ops);
    }
  }

  /** Each drawn point moves the line by less than 0.6 from the price it stands for. */
  lemma JitterIsSmall(history: seq<real>, newPrice: real, r: real)
    requires |history| <= HistoryCap && 0.0 <= r < 1.0
    ensures var h := PushCapped(history, newPrice + Noise(r), HistoryCap);
      newPrice - 0.6 <= h[|h| - 1] < newPrice + 0.6
  {
  }

  /**
   * A card mounted with a non-zero price holds 30 points, so ten updates
   * fill it to capacity; after that each update drops the oldest point.
   */
  lemma SeededCardFillsAfterTen(initial: real, updates: seq<real>)
    requires initial != 0.0 && |updates| == HistoryCap - SeedLength
    ensures |PushAll(Seed(initial), updates, HistoryCap)| == HistoryCap
  {
    var s := Seed(initial);
    assert LastN(s, HistoryCap) == s;
    PushAllSlides(s, updates, HistoryCap);
  }

  /** A card mounted with 0 starts empty and draws nothing until its second update. */
  lemma UnseededCardDrawsLate(p1: real, p2: real)
    ensures Path(PushCapped(Seed(0.0), p1, HistoryCap)) == []
    ensures |Path(PushCapped(PushCapped(Seed(0.0), p1, HistoryCap), p2, HistoryCap))| == 2
  {
  }
}
