/** How many requests the fixed-window limiter lets through in any stretch of time. */
module RateBound {
  import opened Time
  import opened SessionStore
  import opened RateLimit
  import opened Arithmetic

  ghost predicate Run(maps: seq<map<string, Entry<nat>>>, hits: seq<Hit>, window: nat) {
    && |maps| == |hits| + 1 && maps[0] == map[]
    && (forall i {:trigger hits[i]} :: 0 <= i < |hits| ==> LazyIncrement(maps[i], window, hits[i], maps[i + 1]))
    && (forall i, j :: 0 <= i < j < |hits| ==> hits[i].end <= hits[j].at)
  }

  /** A key's window: how many requests it has counted and when it closes. */
  datatype Window = Window(count: nat, closes: Instant)

  function Tick(w: Window, t: Instant, window: nat): Window {
    if t < w.closes then Window(w.count + 1, w.closes) else Window(1, t + window)
  }

  /** The window of `key` after `hits`: only that key's requests matter. */
  function WindowOf(hits: seq<Hit>, key: string, window: nat): Window {
    if hits == [] then Window(0, 0)
    else
      var last := hits[|hits| - 1];
      var before := WindowOf(hits[..|hits| - 1], key, window);
      if last.key == key then Tick(before, last.at, window) else before
  }

  /** The store's entry for `key` stands for window `w` from `t` on. */
  ghost predicate Stands(m: map<string, Entry<nat>>, key: string, w: Window, t: Instant) {
    if t < w.closes then key in m && m[key] == Entry(w.count, w.closes) else key !in m || m[key].expiresAt <= t
  }

  lemma StandsNext(before: map<string, Entry<nat>>, window: nat, h: Hit, after: map<string, Entry<nat>>, key: string, w: Window, t: Instant)
    requires LazyIncrement(before, window, h, after) && Stands(before, key, w, h.at) && h.end <= t
    ensures Stands(after, key, if h.key == key then Tick(w, h.at, window) else w, t)
    ensures h.key == key ==> h.count == Tick(w, h.at, window).count
  {
    var ideal := before[h.key := CountNext(before, h.key, h.at, window)];
    LiveLater(after, ideal, h.end, t);
    assert key in Live(after, t) <==> key in Live(ideal, t);
  }

  /** Whatever is purged when, the store counts each key's requests in that key's own windows. */
  lemma {:induction false} CountsAreWindowed(maps: seq<map<string, Entry<nat>>>, hits: seq<Hit>, window: nat, key: string,
                                            i: nat, t: Instant)
    requires Run(maps, hits, window) && i <= |hits| && (i > 0 ==> hits[i - 1].end <= t)
    ensures Stands(maps[i], key, WindowOf(hits[..i], key, window), t)
    decreases i
  {
    if i > 0 {
      var last := hits[i - 1];
      assert i > 1 ==> hits[i - 2].end <= hits[i - 1].at;
      CountsAreWindowed(maps, hits, window, key, i - 1, last.at);
      assert hits[..i][..i - 1] == hits[..i - 1];
      StandsNext(maps[i - 1], window, last, maps[i], key, WindowOf(hits[..i - 1], key, window), t);
    }
  }

  lemma ReturnedCount(maps: seq<map<string, Entry<nat>>>, hits: seq<Hit>, window: nat, i: nat)
    requires Run(maps, hits, window) && i < |hits|
    ensures hits[i].count == Tick(WindowOf(hits[..i], hits[i].key, window), hits[i].at, window).count
  {
    assert i > 0 ==> hits[i - 1].end <= hits[i].at;
    CountsAreWindowed(maps, hits, window, hits[i].key, i, hits[i].at);
    StandsNext(maps[i], window, hits[i], maps[i + 1], hits[i].key, WindowOf(hits[..i], hits[i].key, window), hits[i].end);
  }

  // --- Counting ------------------------------------------------------------------------------

  /** The counts are those of each key's windows, and time does not run backwards. */
  ghost predicate Windowed(hits: seq<Hit>, window: nat) {
    && (forall i :: 0 <= i < |hits| ==> hits[i].count == Tick(WindowOf(hits[..i], hits[i].key, window), hits[i].at, window).count)
    && (forall i, j :: 0 <= i < j < |hits| ==> hits[i].at <= hits[j].at)
  }

  lemma RunIsWindowed(maps: seq<map<string, Entry<nat>>>, hits: seq<Hit>, window: nat)
    requires Run(maps, hits, window)
    ensures Windowed(hits, window)
  {
    forall i | 0 <= i < |hits|
      ensures hits[i].count == Tick(WindowOf(hits[..i], hits[i].key, window), hits[i].at, window).count
    {
      ReturnedCount(maps, hits, window, i);
    }
    forall i, j | 0 <= i < j < |hits| ensures hits[i].at <= hits[j].at {
      assert LazyIncrement(maps[i], window, hits[i], maps[i + 1]);
    }
  }

  lemma WindowedPrefix(hits: seq<Hit>, window: nat, n: nat)
    requires Windowed(hits, window) && n <= |hits|
    ensures Windowed(hits[..n], window)
  {
    forall i | 0 <= i < n
      ensures hits[..n][i].count == Tick(WindowOf(hits[..n][..i], hits[..n][i].key, window), hits[..n][i].at, window).count
    {
      assert hits[..n][..i] == hits[..i];
    }
  }

  /** The requests for `key` let through at times in `[a, b)`. */
  function AdmittedIn(hits: seq<Hit>, key: string, limit: nat, a: Instant, b: Instant): nat {
    if hits == [] then 0
    else
      var last := hits[|hits| - 1];
      AdmittedIn(hits[..|hits| - 1], key, limit, a, b)
      + (if last.key == key && a <= last.at < b && last.count <= limit then 1 else 0)
  }

  /** How many windows of the given length it takes to cover `x`. */
  function Windows(x: int, window: nat): nat
    requires window >= 1
    decreases if x < 0 then 0 else x
  {
    if x <= 0 then 0 else 1 + Windows(x - window, window)
  }

  lemma {:induction false} WindowsIsCeiling(x: nat, window: nat)
    requires window >= 1
    ensures Windows(x, window) == (x + window - 1) / window
  {
    if x == 0 {
      assert (window - 1) / window == 0;
    } else if x <= window {
      assert Windows(x - window, window) == 0;
      DivStep(x - 1, window);
    } else {
      WindowsIsCeiling(x - window, window);
      DivStep(x - 1, window);
    }
  }

  /** One unit less saves a window exactly when a new one had just begun. */
  lemma {:induction false} WindowsOfOneLess(x: nat, window: nat)
    requires window >= 1 && x >= 1
    ensures Windows(x, window) == Windows(x - 1, window) + if x % window == 1 % window then 1 else 0
  {
    if x > window {
      WindowsOfOneLess(x - window, window);
      DivStep(x - window, window);
    } else {
      assert Windows(x, window) == 1 + Windows(x - window, window) && Windows(x - window, window) == 0;
      assert x > 1 ==> Windows(x - 1, window) == 1 + Windows(x - 1 - window, window);
      SmallMod(x, window);
    }
  }

  lemma SmallMod(x: nat, d: nat)
    requires 1 <= x <= d
    ensures x % d == 1 % d <==> x == 1
  {
    if x < d { DivModUnique(x, d, 0, x); } else { DivModUnique(x, d, 1, 0); }
    if d > 1 { DivModUnique(1, d, 0, 1); }
  }

  /** The most that can be let through in a stretch of the given length. */
  function Most(limit: nat, window: nat, length: nat): nat
    requires window >= 1 && limit >= 1
  {
    var started := (length + window - 1) / window;
    if length % window == 1 % window then limit * started else limit * (started + 1) - 1
  }

  /** Two ways to fill it: with windows that begin with it, or with the end of an earlier window and then more. */
  lemma MostIsEither(limit: nat, window: nat, length: nat)
    requires window >= 1 && limit >= 1 && length >= 1
    ensures limit * Windows(length, window) <= Most(limit, window, length)
    ensures limit - 1 + limit * Windows(length - 1, window) <= Most(limit, window, length)
    ensures Most(limit, window, length)
         == if length % window == 1 % window then limit * Windows(length, window)
            else limit - 1 + limit * Windows(length - 1, window)
  {
    var n := Windows(length - 1, window);
    WindowsIsCeiling(length, window);
    WindowsOfOneLess(length, window);
    assert limit * (n + 1) == limit * n + limit;
  }

  lemma {:induction false} WindowsMonotone(x: int, y: int, window: nat)
    requires window >= 1 && x <= y
    ensures Windows(x, window) <= Windows(y, window)
    decreases if y < 0 then 0 else y
  {
    if x > 0 { WindowsMonotone(x - window, y - window, window); }
  }

  /** What can still be let through before `b`, seen from `t`. */
  function Budget(w: Window, t: Instant, limit: nat, window: nat, b: Instant): nat
    requires window >= 1
  {
    (if t < w.closes && t < b && w.count < limit then limit - w.count else 0)
    + limit * Windows(b - (if t < w.closes then w.closes else t), window)
  }

  lemma TimesMonotone(n: nat, x: nat, y: nat)
    requires x <= y
    ensures n * x <= n * y
  {
  }

  lemma BudgetShrinks(w: Window, t: Instant, u: Instant, limit: nat, window: nat, b: Instant)
    requires window >= 1 && t <= u
    ensures Budget(w, u, limit, window, b) <= Budget(w, t, limit, window, b)
  {
    var x, y := b - (if u < w.closes then w.closes else u), b - (if t < w.closes then w.closes else t);
    WindowsMonotone(x, y, window);
    TimesMonotone(limit, Windows(x, window), Windows(y, window));
  }

  /** A request is paid for out of the budget. */
  lemma TickSpends(w: Window, t: Instant, limit: nat, window: nat, b: Instant)
    requires window >= 1 && limit >= 1 && t < b
    ensures
      var w' := Tick(w, t, window);
      (if w'.count <= limit then 1 else 0) + Budget(w', t, limit, window, b) <= Budget(w, t, limit, window, b)
  {
    if t >= w.closes {
      assert limit * (1 + Windows(b - t - window, window)) == limit + limit * Windows(b - t - window, window);
    }
  }

  /** A window that is open has counted somebody, so it has at most `limit - 1` left to give, and takes time. */
  lemma BudgetAtStart(w: Window, a: Instant, limit: nat, window: nat, b: Instant)
    requires window >= 1 && limit >= 1 && a < b && (w.count >= 1 || w.closes == 0)
    ensures Budget(w, a, limit, window, b) <= Most(limit, window, b - a)
  {
    MostIsEither(limit, window, b - a);
    hide Most;
    if a < w.closes {
      var x, y := Windows(b - w.closes, window), Windows(b - a - 1, window);
      WindowsMonotone(b - w.closes, b - a - 1, window);
      TimesMonotone(limit, x, y);
    }
  }

  lemma {:induction false} WindowCounts(hits: seq<Hit>, key: string, window: nat)
    ensures WindowOf(hits, key, window).count >= 1 || WindowOf(hits, key, window).closes == 0
  {
    if hits != [] { WindowCounts(hits[..|hits| - 1], key, window); }
  }

  lemma {:induction false} NothingYet(hits: seq<Hit>, key: string, limit: nat, a: Instant, b: Instant)
    requires forall i :: 0 <= i < |hits| ==> hits[i].at < a
    ensures AdmittedIn(hits, key, limit, a, b) == 0
  {
    if hits != [] { NothingYet(hits[..|hits| - 1], key, limit, a, b); }
  }

  /** So far admitted, plus what the budget still allows from `t` on, never exceeds the bound. */
  lemma {:induction false} SpentAndBudget(hits: seq<Hit>, key: string, limit: nat, window: nat, a: Instant, b: Instant, t: Instant)
    requires Windowed(hits, window) && window >= 1 && limit >= 1 && a < b && a <= t
    requires forall i :: 0 <= i < |hits| ==> hits[i].at <= t
    ensures AdmittedIn(hits, key, limit, a, b) + Budget(WindowOf(hits, key, window), t, limit, window, b)
         <= Most(limit, window, b - a)
  {
    hide Most;
    var w := WindowOf(hits, key, window);
    if hits == [] || hits[|hits| - 1].at < a {
      NothingYet(hits, key, limit, a, b);
      WindowCounts(hits, key, window);
      BudgetAtStart(w, a, limit, window, b);
      BudgetShrinks(w, a, t, limit, window, b);
    } else {
      var n := |hits| - 1;
      var last := hits[n];
      WindowedPrefix(hits, window, n);
      SpentAndBudget(hits[..n], key, limit, window, a, b, last.at);
      if last.key == key && last.at < b {
        TickSpends(WindowOf(hits[..n], key, window), last.at, limit, window, b);
      }
      BudgetShrinks(w, last.at, t, limit, window, b);
      if last.key == key && last.at >= b {
        assert Budget(w, last.at, limit, window, b) == 0;
      }
    }
  }

  lemma LastIsLatest(hits: seq<Hit>, window: nat, a: Instant) returns (t: Instant)
    requires Windowed(hits, window)
    ensures a <= t && forall i :: 0 <= i < |hits| ==> hits[i].at <= t
  {
    t := if hits == [] || hits[|hits| - 1].at < a then a else hits[|hits| - 1].at;
    forall i | 0 <= i < |hits| ensures hits[i].at <= t {
      assert i < |hits| - 1 ==> hits[i].at <= hits[|hits| - 1].at;
    }
  }

  /** In any stretch `[a, a + length)` at most `limit * (ceil(length / window) + 1) - 1` requests for a key are
      let through, and `limit - 1` fewer when the length is one more than a multiple of the window. */
  lemma AdmittedBound(maps: seq<map<string, Entry<nat>>>, hits: seq<Hit>, window: nat, key: string, limit: nat, a: Instant, length: nat)
    requires Run(maps, hits, window) && window >= 1 && limit >= 1 && length >= 1
    ensures AdmittedIn(hits, key, limit, a, a + length) <= Most(limit, window, length)
  {
    RunIsWindowed(maps, hits, window);
    hide *;
    var t := LastIsLatest(hits, window, a);
    SpentAndBudget(hits, key, limit, window, a, a + length, t);
  }

  lemma {:induction false} ZeroLimitAdmits(hits: seq<Hit>, key: string, a: Instant, b: Instant)
    requires forall i :: 0 <= i < |hits| ==> hits[i].count >= 1
    ensures AdmittedIn(hits, key, 0, a, b) == 0
  {
    if hits != [] { ZeroLimitAdmits(hits[..|hits| - 1], key, a, b); }
  }

  /** With a limit of zero nothing is let through. */
  lemma ZeroLimit(maps: seq<map<string, Entry<nat>>>, hits: seq<Hit>, window: nat, key: string, a: Instant, b: Instant)
    requires Run(maps, hits, window)
    ensures AdmittedIn(hits, key, 0, a, b) == 0
  {
    RunIsWindowed(maps, hits, window);
    ZeroLimitAdmits(hits, key, a, b);
  }

  // --- The count as an ordinal -----------------------------------------------------------------

  function Requests(hits: seq<Hit>, key: string): nat {
    if hits == [] then 0
    else Requests(hits[..|hits| - 1], key) + (if hits[|hits| - 1].key == key then 1 else 0)
  }

  /** Request `o` opened the window that `w` describes, and `w.count` is the number of requests for `key` from
      `o` on. */
  ghost predicate OpenedBy(hits: seq<Hit>, key: string, window: nat, w: Window, o: nat) {
    && o < |hits| && hits[o].key == key && hits[o].count == 1
    && w.closes == hits[o].at + window && w.count == Requests(hits[o..], key)
    && forall i :: o <= i < |hits| && hits[i].key == key ==> hits[i].at < w.closes || i == o
  }

  lemma RequestsSnoc(hits: seq<Hit>, key: string, o: nat)
    requires o < |hits|
    ensures Requests(hits[o..], key)
         == Requests(hits[..|hits| - 1][o..], key) + (if hits[|hits| - 1].key == key then 1 else 0)
  {
    assert hits[o..][..|hits[o..]| - 1] == hits[..|hits| - 1][o..];
  }

  lemma OpenerStays(hits: seq<Hit>, key: string, window: nat, w: Window, o: nat, h: Hit)
    requires OpenedBy(hits, key, window, w, o) && (h.key == key ==> h.at < w.closes)
    ensures OpenedBy(hits + [h], key, window, if h.key == key then w.(count := w.count + 1) else w, o)
  {
    var more := hits + [h];
    assert more[..|more| - 1] == hits;
    RequestsSnoc(more, key, o);
  }

  lemma NewOpener(hits: seq<Hit>, window: nat, h: Hit)
    requires h.count == 1
    ensures OpenedBy(hits + [h], h.key, window, Window(1, h.at + window), |hits|)
  {
    assert (hits + [h])[|hits|..] == [h] && [h][..0] == [];
  }

  lemma WindowSnoc(hits: seq<Hit>, h: Hit, key: string, window: nat)
    ensures WindowOf(hits + [h], key, window)
         == if h.key == key then Tick(WindowOf(hits, key, window), h.at, window) else WindowOf(hits, key, window)
    ensures Requests(hits + [h], key) == Requests(hits, key) + if h.key == key then 1 else 0
  {
    assert (hits + [h])[..|hits|] == hits;
  }

  /** `o` opened the current window of `key`, if it has one. */
  ghost predicate HasOpener(hits: seq<Hit>, key: string, window: nat, o: nat) {
    if Requests(hits, key) == 0 then WindowOf(hits, key, window) == Window(0, 0)
    else OpenedBy(hits, key, window, WindowOf(hits, key, window), o)
  }

  lemma OpenerNext(hits: seq<Hit>, h: Hit, key: string, window: nat, o: nat) returns (o': nat)
    requires HasOpener(hits, key, window, o)
    requires h.key == key ==> h.count == Tick(WindowOf(hits, key, window), h.at, window).count
    ensures HasOpener(hits + [h], key, window, o')
  {
    WindowSnoc(hits, h, key, window);
    hide OpenedBy, Requests, WindowOf;
    var w := WindowOf(hits, key, window);
    if h.key == key && h.at >= w.closes {
      o' := |hits|;
      NewOpener(hits, window, h);
    } else {
      o' := o;
      if Requests(hits, key) > 0 { OpenerStays(hits, key, window, w, o, h); }
    }
  }

  lemma {:induction false} WindowHasOpener(hits: seq<Hit>, key: string, window: nat) returns (o: nat)
    requires Windowed(hits, window)
    ensures HasOpener(hits, key, window, o)
  {
    o := 0;
    if hits != [] {
      var n := |hits| - 1;
      var before, last := hits[..n], hits[n];
      WindowedPrefix(hits, window, n);
      assert last.key == key ==> last.count == Tick(WindowOf(before, key, window), last.at, window).count;
      assert hits == before + [last];
      hide HasOpener, Windowed, WindowOf;
      o := WindowHasOpener(before, key, window);
      o := OpenerNext(before, last, key, window, o);
    }
  }

  lemma WindowedAt(hits: seq<Hit>, window: nat, p: nat, q: nat)
    requires Windowed(hits, window) && p <= q < |hits|
    ensures hits[p].at <= hits[q].at
    ensures hits[q].count == Tick(WindowOf(hits[..q], hits[q].key, window), hits[q].at, window).count
  {
    hide WindowOf;
  }

  lemma WindowTake(hits: seq<Hit>, n: nat, key: string, window: nat)
    requires n < |hits|
    ensures WindowOf(hits[..n + 1], key, window)
         == if hits[n].key == key then Tick(WindowOf(hits[..n], key, window), hits[n].at, window)
            else WindowOf(hits[..n], key, window)
  {
    assert hits[..n + 1][..n] == hits[..n];
  }

  lemma LatestRequest(hits: seq<Hit>, window: nat, i: nat, o: nat)
    requires i < |hits| && HasOpener(hits[..i + 1], hits[i].key, window, o)
    ensures o <= i && hits[o].key == hits[i].key && hits[o].count == 1
    ensures window >= 1 ==> hits[i].at < hits[o].at + window
    ensures WindowOf(hits[..i + 1], hits[i].key, window).count == Requests(hits[o..i + 1], hits[i].key)
  {
    var upTo := hits[..i + 1];
    assert upTo == hits[..i] + [hits[i]];
    WindowSnoc(hits[..i], hits[i], hits[i].key, window);
    hide WindowOf, Requests;
    assert upTo[i] == hits[i];
    assert upTo[o] == hits[o] && upTo[o..] == hits[o..i + 1];
  }

  /** Each returned count is the ordinal of the request among those for its key since some request `o`, which was
      counted 1 and opened a window that is still open. */
  lemma CountIsOrdinal(maps: seq<map<string, Entry<nat>>>, hits: seq<Hit>, window: nat, i: nat) returns (o: nat)
    requires Run(maps, hits, window) && window >= 1 && i < |hits|
    ensures o <= i && hits[o].key == hits[i].key && hits[o].count == 1
    ensures hits[i].at < hits[o].at + window
    ensures hits[i].count == Requests(hits[o..i + 1], hits[i].key)
  {
    hide *;
    RunIsWindowed(maps, hits, window);
    WindowedPrefix(hits, window, i + 1);
    o := WindowHasOpener(hits[..i + 1], hits[i].key, window);
    LatestRequest(hits, window, i, o);
    WindowedAt(hits, window, i, i);
    WindowTake(hits, i, hits[i].key, window);
  }

  /** Windows do not overlap: two requests counted 1 for the same key are at least a window apart. */
  lemma OpenersApart(maps: seq<map<string, Entry<nat>>>, hits: seq<Hit>, window: nat, p: nat, q: nat)
    requires Run(maps, hits, window) && p < q < |hits| && hits[p].key == hits[q].key
    requires hits[p].count == 1 && hits[q].count == 1
    ensures hits[p].at + window <= hits[q].at
  {
    RunIsWindowed(maps, hits, window);
    ClosesAfterOpener(hits, window, p, q);
  }

  /** A window that is at least as recent as one opened at `t`. */
  ghost predicate IsSince(w: Window, t: Instant, window: nat) {
    w.closes >= t + window && w.count >= 1
  }

  lemma TickSince(w: Window, t: Instant, u: Instant, window: nat)
    requires t <= u
    ensures IsSince(w, t, window) ==> IsSince(Tick(w, u, window), t, window)
    ensures (w.count >= 1 || w.closes == 0) && Tick(w, t, window).count == 1 ==> IsSince(Tick(w, t, window), t, window)
  {
  }

  lemma SinceOpener(hits: seq<Hit>, window: nat, p: nat)
    requires Windowed(hits, window) && p < |hits| && hits[p].count == 1
    ensures IsSince(WindowOf(hits[..p + 1], hits[p].key, window), hits[p].at, window)
  {
    hide *;
    WindowedAt(hits, window, p, p);
    WindowTake(hits, p, hits[p].key, window);
    WindowCounts(hits[..p], hits[p].key, window);
    TickSince(WindowOf(hits[..p], hits[p].key, window), hits[p].at, hits[p].at, window);
  }

  lemma SinceNext(hits: seq<Hit>, window: nat, p: nat, n: nat)
    requires Windowed(hits, window) && p < n < |hits|
    requires IsSince(WindowOf(hits[..n], hits[p].key, window), hits[p].at, window)
    ensures IsSince(WindowOf(hits[..n + 1], hits[p].key, window), hits[p].at, window)
  {
    hide *;
    WindowedAt(hits, window, p, n);
    WindowTake(hits, n, hits[p].key, window);
    TickSince(WindowOf(hits[..n], hits[p].key, window), hits[p].at, hits[n].at, window);
  }

  lemma {:induction false} ClosesAfterOpener(hits: seq<Hit>, window: nat, p: nat, q: nat)
    requires Windowed(hits, window) && p < q <= |hits| && hits[p].count == 1
    ensures IsSince(WindowOf(hits[..q], hits[p].key, window), hits[p].at, window)
    decreases q
  {
    hide *;
    if p < q - 1 {
      ClosesAfterOpener(hits, window, p, q - 1);
      SinceNext(hits, window, p, q - 1);
    } else {
      SinceOpener(hits, window, p);
    }
  }

  // --- The bound is attained -------------------------------------------------------------------

  /** No request in `hits` ends after `t`. */
  ghost predicate EndsBy(hits: seq<Hit>, t: Instant) {
    forall i :: 0 <= i < |hits| ==> hits[i].end <= t
  }

  /** A run goes on with one more request at `t`. */
  lemma OneMore(maps: seq<map<string, Entry<nat>>>, hits: seq<Hit>, window: nat, key: string, t: Instant)
    returns (maps': seq<map<string, Entry<nat>>>, h: Hit)
    requires Run(maps, hits, window) && EndsBy(hits, t)
    ensures Run(maps', hits + [h], window) && EndsBy(hits + [h], t)
    ensures h.key == key && h.at == t && h.count == Tick(WindowOf(hits, key, window), t, window).count
  {
    var m := maps[|hits|];
    h := Hit(key, CountNext(m, key, t, window).value, t, t);
    maps' := maps + [m[key := CountNext(m, key, t, window)]];
    assert LazyIncrement(m, window, h, maps'[|hits| + 1]);
    assert hits[..|hits|] == hits;
    CountsAreWindowed(maps, hits, window, key, |hits|, t);
    StandsNext(m, window, h, maps'[|hits| + 1], key, WindowOf(hits, key, window), t);
  }

  /** A burst of `n` requests at `t`, all let through as long as the window's limit allows. */
  lemma {:induction false} Burst(maps: seq<map<string, Entry<nat>>>, hits: seq<Hit>, window: nat, key: string, t: Instant,
                                 n: nat, limit: nat, a: Instant, b: Instant)
    returns (maps': seq<map<string, Entry<nat>>>, hits': seq<Hit>)
    requires Run(maps, hits, window) && EndsBy(hits, t) && a <= t < b
    requires t < WindowOf(hits, key, window).closes && WindowOf(hits, key, window).count + n <= limit
    ensures Run(maps', hits', window) && EndsBy(hits', t)
    ensures WindowOf(hits', key, window) == Window(WindowOf(hits, key, window).count + n, WindowOf(hits, key, window).closes)
    ensures AdmittedIn(hits', key, limit, a, b) == AdmittedIn(hits, key, limit, a, b) + n
    decreases n
  {
    if n == 0 {
      maps', hits' := maps, hits;
    } else {
      var maps1, h := OneMore(maps, hits, window, key, t);
      assert (hits + [h])[..|hits|] == hits;
      maps', hits' := Burst(maps1, hits + [h], window, key, t, n - 1, limit, a, b);
    }
  }

  lemma SnocFacts(hits: seq<Hit>, h: Hit, window: nat, limit: nat, a: Instant, b: Instant)
    ensures WindowOf(hits + [h], h.key, window) == Tick(WindowOf(hits, h.key, window), h.at, window)
    ensures AdmittedIn(hits + [h], h.key, limit, a, b)
         == AdmittedIn(hits, h.key, limit, a, b) + (if a <= h.at < b && h.count <= limit then 1 else 0)
  {
    assert (hits + [h])[..|hits|] == hits;
  }

  lemma EndsByLater(hits: seq<Hit>, t: Instant, u: Instant)
    requires EndsBy(hits, t) && t <= u
    ensures EndsBy(hits, u)
  {
  }

  /** A request that opens a window, and a burst that fills it up, `early` of it before `u`. */
  lemma OpenAndFill(maps: seq<map<string, Entry<nat>>>, hits: seq<Hit>, window: nat, key: string, t: Instant, u: Instant,
                    limit: nat, a: Instant, b: Instant)
    returns (maps': seq<map<string, Entry<nat>>>, hits': seq<Hit>)
    requires Run(maps, hits, window) && EndsBy(hits, t) && limit >= 1
    requires WindowOf(hits, key, window).closes <= t <= u < t + window && a <= u < b
    ensures Run(maps', hits', window) && EndsBy(hits', u) && WindowOf(hits', key, window).closes == t + window
    ensures AdmittedIn(hits', key, limit, a, b)
         == AdmittedIn(hits, key, limit, a, b) + limit - 1 + (if a <= t < b then 1 else 0)
  {
    var maps1, h := OneMore(maps, hits, window, key, t);
    SnocFacts(hits, h, window, limit, a, b);
    hide Run, EndsBy, AdmittedIn, WindowOf;
    EndsByLater(hits + [h], t, u);
    maps', hits' := Burst(maps1, hits + [h], window, key, u, limit - 1, limit, a, b);
  }

  /** Windows opened and filled up one after the other from `t` on, for as long as the stretch lasts. */
  lemma {:induction false} FillWindows(maps: seq<map<string, Entry<nat>>>, hits: seq<Hit>, window: nat, key: string,
                                       t: Instant, limit: nat, a: Instant, b: Instant)
    returns (maps': seq<map<string, Entry<nat>>>, hits': seq<Hit>)
    requires window >= 1 && limit >= 1 && a <= t
    requires Run(maps, hits, window) && EndsBy(hits, t) && WindowOf(hits, key, window).closes <= t
    ensures Run(maps', hits', window)
    ensures AdmittedIn(hits', key, limit, a, b) == AdmittedIn(hits, key, limit, a, b) + limit * Windows(b - t, window)
    decreases b - t
  {
    hide Run, EndsBy, AdmittedIn, WindowOf;
    if b <= t {
      maps', hits' := maps, hits;
    } else {
      maps', hits' := OpenAndFill(maps, hits, window, key, t, t, limit, a, b);
      EndsByLater(hits', t, t + window);
      maps', hits' := FillWindows(maps', hits', window, key, t + window, limit, a, b);
      assert limit * (1 + Windows(b - t - window, window)) == limit + limit * Windows(b - t - window, window);
    }
  }

  lemma NoHits(window: nat, key: string, limit: nat, a: Instant, b: Instant)
    ensures Run([map[]], [], window) && EndsBy([], 0)
    ensures WindowOf([], key, window) == Window(0, 0) && AdmittedIn([], key, limit, a, b) == 0
  {
  }

  lemma WindowsFromStart(window: nat, limit: nat, b: Instant, key: string)
    returns (maps: seq<map<string, Entry<nat>>>, hits: seq<Hit>)
    requires window >= 1 && limit >= 1
    ensures Run(maps, hits, window) && AdmittedIn(hits, key, limit, 0, b) == limit * Windows(b, window)
  {
    hide *;
    NoHits(window, key, limit, 0, b);
    maps, hits := FillWindows([map[]], [], window, key, 0, limit, 0, b);
  }

  lemma WindowsFromEnd(window: nat, limit: nat, b: Instant, key: string)
    returns (maps: seq<map<string, Entry<nat>>>, hits: seq<Hit>)
    requires window >= 1 && limit >= 1 && window <= b
    ensures Run(maps, hits, window)
    ensures AdmittedIn(hits, key, limit, window - 1, b)
         == limit - 1 + limit * Windows(b - window, window) + if window == 1 then 1 else 0
  {
    hide *;
    NoHits(window, key, limit, window - 1, b);
    maps, hits := OpenAndFill([map[]], [], window, key, 0, window - 1, limit, window - 1, b);
    EndsByLater(hits, window - 1, window);
    maps, hits := FillWindows(maps, hits, window, key, window, limit, window - 1, b);
  }

  /** The bound is attained for every length, window and limit. */
  lemma BoundAttained(window: nat, limit: nat, length: nat, key: string)
    returns (maps: seq<map<string, Entry<nat>>>, hits: seq<Hit>, a: Instant)
    requires window >= 1 && limit >= 1 && length >= 1
    ensures Run(maps, hits, window)
    ensures AdmittedIn(hits, key, limit, a, a + length) == Most(limit, window, length)
  {
    MostIsEither(limit, window, length);
    SmallMod(1, window);
    hide Run, AdmittedIn, Most, Windows;
    if length % window == 1 % window {
      a := 0;
      maps, hits := WindowsFromStart(window, limit, length, key);
    } else {
      a := window - 1;
      maps, hits := WindowsFromEnd(window, limit, a + length, key);
    }
  }
}
