/** What a request does, hop by hop, said in terms of URLs, addresses and statuses alone. */
module RequestLaws {
  import opened Wrappers
  import opened SafeIp
  import opened HttpClient

  lemma {:induction false} HopAt(p: Policy, start: string, hops: seq<Hop>, i: nat)
    requires AreHops(p, start, hops) && i < |hops|
    ensures AreHops(p, start, hops[..i]) && IsNextHop(p, start, hops[..i], hops[i]) && Ending(p, i + 1, hops[i]) == None
    decreases |hops|
  {
    var n := |hops| - 1;
    hide IsNextHop, Ending;
    if i < n {
      HopAt(p, start, hops[..n], i);
      assert hops[..n][..i] == hops[..i];
    }
  }

  /** Each hop of a request is one that its predecessors lead to. */
  lemma HopOfRequest(p: Policy, start: string, hops: seq<Hop>, rest: seq<Event>, r: Result<Answer>, i: nat)
    requires IsRequest(p, start, hops, rest, r) && i < |hops|
    ensures AreHops(p, start, hops[..i]) && IsNextHop(p, start, hops[..i], hops[i])
    ensures i < |hops| - 1 ==> Ending(p, i + 1, hops[i]) == None
  {
    hide IsNextHop, Ending, IsRefused;
    if AreHops(p, start, hops) {
      HopAt(p, start, hops, i);
    } else {
      var n := |hops| - 1;
      if i < n {
        HopAt(p, start, hops[..n], i);
        assert hops[..n][..i] == hops[..i];
      }
    }
  }

  /** What is checked before anything is sent in a hop: an http or https URL, a host that is on the allow-list if there
      is one, and an address of it that is safe, or loopback where that is allowed. */
  lemma HopIsChecked(p: Policy, start: string, hops: seq<Hop>, rest: seq<Event>, r: Result<Answer>, i: nat)
    requires IsRequest(p, start, hops, rest, r) && i < |hops|
    ensures
      var h, u := hops[i], p.syntax.parse(hops[i].url);
      && u.Some? && (u.value.scheme == "http" || u.value.scheme == "https") && u.value.host == Some(h.host)
      && (p.allowlist.Some? ==> h.host in p.allowlist.value)
      && (p.syntax.literal(h.host).Some? ==> p.syntax.literal(h.host).value == h.ip)
      && (IsSafeIp(h.ip) || (p.allowLoopback && IsLoopback(h.ip)))
  {
    HopOfRequest(p, start, hops, rest, r, i);
  }

  /** The attempts of a hop all go to its URL and to permitted addresses. There is another one after each attempt that
      got no answer or a 5xx, and after no other, up to three in all, or one if the request may not be repeated. */
  lemma HopIsTried(p: Policy, start: string, hops: seq<Hop>, rest: seq<Event>, r: Result<Answer>, i: nat, n: nat)
    requires IsRequest(p, start, hops, rest, r) && i < |hops| && n < |hops[i].attempts|
    ensures
      var es := hops[i].attempts;
      && es[n].Attempted? && es[n].url == hops[i].url
      && (forall ip <- es[n].to :: IsSafeIp(ip) || (p.allowLoopback && IsLoopback(ip)))
      && (n + 1 < |es| <==>
            (es[n].answer.Failure? || 500 <= es[n].answer.status <= 599) && p.retryable && n < 2)
  {
    HopOfRequest(p, start, hops, rest, r, i);
    LawfulAttempts(p, start, hops[..i], hops[i]);
    hide *;
    AttemptAt(hops[i].attempts, hops[i].url, p.retryable, p.allowLoopback, n);
  }

  lemma LawfulAttempts(p: Policy, start: string, before: seq<Hop>, h: Hop)
    requires IsNextHop(p, start, before, h)
    ensures AreAttempts(h.attempts, h.url, p.retryable) && AllTo(h.attempts, p.allowLoopback)
  {
    hide AreAttempts, AllTo, CheckSays, Next;
  }

  lemma AttemptAt(es: seq<Event>, url: string, retryable: bool, allowLoopback: bool, n: nat)
    requires AreAttempts(es, url, retryable) && AllTo(es, allowLoopback) && n < |es|
    ensures es[n].Attempted? && es[n].url == url
    ensures forall ip <- es[n].to :: IsSafeIp(ip) || (allowLoopback && IsLoopback(ip))
    ensures n + 1 < |es| <==> (es[n].answer.Failure? || 500 <= es[n].answer.status <= 599) && retryable && n < 2
  {
    hide IsSafeIp, IsLoopback;
    assert es[n] in es;
    if n + 1 < |es| {
      assert es[..|es| - 1][n] == es[n] && es[n] in es[..|es| - 1];
    }
  }

  /** There is at least one attempt. */
  lemma HopHasAttempts(p: Policy, start: string, hops: seq<Hop>, rest: seq<Event>, r: Result<Answer>, i: nat)
    requires IsRequest(p, start, hops, rest, r) && i < |hops|
    ensures hops[i].attempts != [] && hops[i].attempts[|hops[i].attempts| - 1].Attempted?
  {
    HopOfRequest(p, start, hops, rest, r, i);
    assert hops[i].attempts[|hops[i].attempts| - 1] in hops[i].attempts;
  }

  /** The first hop goes to the URL asked for, each other one to where the one before it was redirected: to the location
      given with a 3xx status, as it stands if it is a URL, or else joined to the URL it came from. */
  lemma HopFollows(p: Policy, start: string, hops: seq<Hop>, rest: seq<Event>, r: Result<Answer>, i: nat)
    requires IsRequest(p, start, hops, rest, r) && i < |hops|
    ensures i == 0 ==> hops[i].url == start
    ensures i > 0 ==>
      && hops[i - 1].attempts != [] && hops[i - 1].attempts[|hops[i - 1].attempts| - 1].Attempted?
      && var a := hops[i - 1].attempts[|hops[i - 1].attempts| - 1].answer;
      && a.Response? && 300 <= a.status <= 399 && a.location.Some? && i <= 3
      && Some(hops[i].url) == if p.syntax.parse(a.location.value).Some? then a.location
                              else p.syntax.join(hops[i - 1].url, a.location.value)
  {
    hide *;
    HopOfRequest(p, start, hops, rest, r, i);
    if i > 0 {
      HopOfRequest(p, start, hops, rest, r, i - 1);
      HopHasAttempts(p, start, hops, rest, r, i - 1);
      HopLeadsTo(p, start, hops[..i], hops[i]);
    } else {
      FirstHop(p, start, hops[..0], hops[0]);
    }
  }

  lemma FirstHop(p: Policy, start: string, before: seq<Hop>, h: Hop)
    requires before == [] && IsNextHop(p, start, before, h)
    ensures h.url == start
  {
    hide IsLawfulHop;
  }

  lemma HopLeadsTo(p: Policy, start: string, before: seq<Hop>, h: Hop)
    requires before != [] && IsNextHop(p, start, before, h) && Ending(p, |before|, before[|before| - 1]) == None
    requires var es := before[|before| - 1].attempts; es != [] && es[|es| - 1].Attempted?
    ensures
      var b := before[|before| - 1];
      var a := b.attempts[|b.attempts| - 1].answer;
      && a.Response? && 300 <= a.status <= 399 && a.location.Some? && |before| <= 3
      && Some(h.url) == if p.syntax.parse(a.location.value).Some? then a.location else p.syntax.join(b.url, a.location.value)
  {
    hide IsLawfulHop;
  }

  /** How a request whose last hop was answered ends: with the answer, unless that is a redirection; with an error if
      there was no answer, a fourth redirection, one without a location, or one to what is no URL. It goes on otherwise,
      and only then. */
  lemma RequestEnds(p: Policy, start: string, hops: seq<Hop>, rest: seq<Event>, r: Result<Answer>)
    requires IsRequest(p, start, hops, rest, r) && hops != []
    ensures hops[|hops| - 1].attempts != [] && hops[|hops| - 1].attempts[|hops[|hops| - 1].attempts| - 1].Attempted?
    ensures
      var h := hops[|hops| - 1];
      var a := h.attempts[|h.attempts| - 1].answer;
      if a.Failure? then rest == [] && r == Err(Reqwest)
      else if a.status < 300 || 399 < a.status then rest == [] && r == Ok(a)
      else if |hops| == 4 || a.location == None then rest == [] && r == Err(Redirect)
      else if p.syntax.parse(a.location.value) == None && p.syntax.join(h.url, a.location.value) == None
      then rest == [] && r == Err(InvalidUrl)
      else
        var next := if p.syntax.parse(a.location.value).Some? then a.location.value
                    else p.syntax.join(h.url, a.location.value).value;
        |hops| <= 3 && r.Err? && IsRefused(p, next, rest, r.error)
  {
    HopHasAttempts(p, start, hops, rest, r, |hops| - 1);
    HopOfRequest(p, start, hops, rest, r, |hops| - 1);
    RequestLawful(p, start, hops, rest, r);
    hide IsRefused, IsLawfulHop, AllLawful;
  }

  /** A request without hops is refused at once. */
  lemma RequestRefused(p: Policy, start: string, rest: seq<Event>, r: Result<Answer>)
    requires IsRequest(p, start, [], rest, r)
    ensures r.Err? && IsRefused(p, start, rest, r.error)
  {
    hide IsRefused;
  }

  /** Why a URL is refused before anything is sent to it, in this order: it is no URL, it has no host, its scheme is
      neither http nor https, its literal address is not permitted, none or not all of its addresses are, or its host
      is not on the allow-list; the last only after its address was pinned. */
  lemma RefusedBecause(p: Policy, url: string, rest: seq<Event>, e: Error)
    requires IsRefused(p, url, rest, e)
    ensures
      var u := p.syntax.parse(url);
      if u == None then rest == [] && e == InvalidUrl
      else if u.value.host == None then rest == [] && e == MissingHost
      else if u.value.scheme != "http" && u.value.scheme != "https" then rest == [] && e == ForbiddenScheme
      else
        var host := u.value.host.value;
        var literal := p.syntax.literal(host);
        if literal.Some? && !IsSafeIp(literal.value) && !(p.allowLoopback && IsLoopback(literal.value))
        then rest == [] && e == UnsafeIp
        else if rest == [] then literal.None? && (e == UnsafeIp || e == ResolveFailed)
        else
          && rest[0].Verified? && rest == [Verified(url, rest[0].ip), Pinned(host, rest[0].ip)]
          && (IsSafeIp(rest[0].ip) || (p.allowLoopback && IsLoopback(rest[0].ip)))
          && p.allowlist.Some? && host !in p.allowlist.value && e == EgressBlocked(host)
  {
  }

  /** The order of things: the events of a request are those of its hops, each the check of its URL, the pin of its host,
      the clearance of its host, and its attempts. */
  lemma {:induction false} EventsOfHop(hops: seq<Hop>, i: nat) returns (j: nat)
    requires i < |hops|
    ensures j + 3 + |hops[i].attempts| <= |Flatten(hops)|
    ensures Flatten(hops)[j..j + 3] == [Verified(hops[i].url, hops[i].ip), Pinned(hops[i].host, hops[i].ip), Cleared(hops[i].host)]
    ensures Flatten(hops)[j + 3..j + 3 + |hops[i].attempts|] == hops[i].attempts
    ensures i == 0 ==> j == 0
    ensures i == |hops| - 1 ==> j + 3 + |hops[i].attempts| == |Flatten(hops)|
    decreases |hops|
  {
    var n := |hops| - 1;
    var before, last := Flatten(hops[..n]), Events(hops[n]);
    assert Flatten(hops) == before + last && (n == 0 ==> before == []);
    assert |last| == 3 + |hops[n].attempts|;
    if i < n {
      hide Flatten, Events;
      j := EventsOfHop(hops[..n], i);
      SlicesOfLeft(before, last, j, j + 3, j + 3 + |hops[i].attempts|);
    } else {
      j := |before|;
      SlicesOfRight(before, last, 3);
      assert last[..3] == [Verified(hops[n].url, hops[n].ip), Pinned(hops[n].host, hops[n].ip), Cleared(hops[n].host)];
      assert last[3..] == hops[n].attempts;
    }
  }

  lemma SlicesOfLeft(a: seq<Event>, b: seq<Event>, i: nat, j: nat, k: nat)
    requires i <= j <= k <= |a|
    ensures (a + b)[i..j] == a[i..j] && (a + b)[j..k] == a[j..k]
  {
  }

  lemma SlicesOfRight(a: seq<Event>, b: seq<Event>, k: nat)
    requires k <= |b|
    ensures (a + b)[|a|..|a| + k] == b[..k] && (a + b)[|a| + k..|a| + |b|] == b[k..]
  {
  }
}
