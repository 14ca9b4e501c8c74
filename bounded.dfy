/**
 * Bounded recent-history buffers, as both the price simulator (capacity 60)
 * and the sparkline of a stock card (capacity 40) keep them: a JavaScript
 * array that receives `push(x)` and then, when it has grown past the
 * capacity, one `shift()`.
 */
module Bounded {

  /** `s.push(x); if (s.length > cap) s.shift();` */
  function PushCapped<T>(s: seq<T>, x: T, cap: nat): (r: seq<T>)
    requires cap >= 1
    // at most one entry (the oldest) is dropped, and only on overflow
    ensures |r| == (if |s| + 1 > cap then |s| else |s| + 1)
    // the new entry is always the newest one
    ensures |r| >= 1 && r[|r| - 1] == x
    // a buffer within capacity stays within capacity
    ensures |s| <= cap ==> |r| <= cap
  {
    var t := s + [x];
    if |t| > cap then t[1..] else t
  }

  /** What a push keeps is a suffix of the old entries followed by the new one. */
  lemma PushCappedSuffix<T>(s: seq<T>, x: T, cap: nat)
    requires cap >= 1
    ensures var r := PushCapped(s, x, cap); r == (s + [x])[|s| + 1 - |r|..]
  {
  }

  /** A push brings in no value other than the new one. */
  lemma PushCappedValues<T>(s: seq<T>, x: T, cap: nat)
    requires cap >= 1
    ensures forall v :: v in PushCapped(s, x, cap) ==> v == x || v in s
  {
    var r := PushCapped(s, x, cap);
    PushCappedSuffix(s, x, cap);
    forall v | v in r ensures v == x || v in s {
      var k :| 0 <= k < |r| && r[k] == v;
      var d := |s| + 1 - |r|;
      if d + k < |s| {
        assert r[k] == s[d + k];
      }
    }
  }

  /**
   * `s.slice(-n)` for a positive `n`: the last `n` entries, or all of them
   * when there are fewer. (`slice(-0)` would return the whole array, which no
   * caller asks for.)
   */
  function LastN<T>(s: seq<T>, n: nat): (r: seq<T>)
    requires n >= 1
    ensures |r| == (if |s| < n then |s| else n)
    ensures r == s[|s| - |r|..]
  {
    if |s| <= n then s else s[|s| - n..]
  }

  /** Pushing the values `xs` one after another, oldest first. */
  function PushAll<T>(s: seq<T>, xs: seq<T>, cap: nat): (r: seq<T>)
    requires cap >= 1
    ensures |s| <= cap ==> |r| <= cap
    ensures |r| <= |s| + |xs|
    ensures xs != [] ==> r != [] && r[|r| - 1] == xs[|xs| - 1]
    decreases |xs|
  {
    if xs == [] then s else PushAll(PushCapped(s, xs[0], cap), xs[1..], cap)
  }

  /**
   * A buffer that holds the last `cap` values of a stream still holds the
   * last `cap` values after one more push: the buffer is a sliding window.
   */
  lemma PushCappedSlides<T>(all: seq<T>, x: T, cap: nat)
    requires cap >= 1
    ensures PushCapped(LastN(all, cap), x, cap) == LastN(all + [x], cap)
  {
    var w := LastN(all, cap);
    var ext := all + [x];
    if |all| < cap {
      assert w == all;
    } else {
      assert w == all[|all| - cap..];
      calc {
        PushCapped(w, x, cap);
        (w + [x])[1..];
        { assert (w + [x])[1..] == ext[|ext| - cap..]; }
        LastN(ext, cap);
      }
    }
  }

  /**
   * Starting from any window of a stream, a sequence of pushes leaves the
   * window of the whole stream: no entry is lost before its time and the
   * oldest is always the one evicted.
   */
  lemma {:induction false} PushAllSlides<T>(all: seq<T>, xs: seq<T>, cap: nat)
    requires cap >= 1
    ensures PushAll(LastN(all, cap), xs, cap) == LastN(all + xs, cap)
    decreases |xs|
  {
    if xs == [] {
      assert all + xs == all;
    } else {
      var next := all + [xs[0]];
      assert next + xs[1..] == all + xs;
      PushCappedSlides(all, xs[0], cap);
      PushAllSlides(next, xs[1..], cap);
    }
  }

  /**
   * FIFO eviction: once `cap` or more values have been pushed, nothing of the
   * starting window is left; the buffer is exactly the last `cap` pushed values.
   */
  lemma EvictsAllOldEntries<T>(s: seq<T>, xs: seq<T>, cap: nat)
    requires cap >= 1 && |s| <= cap && |xs| >= cap
    ensures PushAll(s, xs, cap) == xs[|xs| - cap..]
  {
    assert LastN(s, cap) == s;
    PushAllSlides(s, xs, cap);
    assert (s + xs)[|s + xs| - cap..] == xs[|xs| - cap..];
  }
}
