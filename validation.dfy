/**
 * The two middlewares of src/api/middleware/validation.ts that decide
 * something: `rateLimiter`, a fixed-window counter per client kept in a map
 * that each request updates in place, and `sizeLimit`, which turns away a
 * request whose `Content-Length` exceeds the limit.  The clock (`Date.now()`)
 * and the request's headers are parameters; responses are values.
 */
module Validation {
  import opened Common
  import CanvasStyle

  // ---- rateLimiter ----

  /** `{ count, resetTime }` of one client. */
  datatype Entry = Entry(count: int, resetTime: int)

  /** `next()`, or the 429 body's `retryAfter` in seconds. */
  datatype Verdict = Proceed | TooManyRequests(retryAfter: int)

  const DefaultMaxRequests := 10
  const DefaultWindowMs := 60000

  /** `req.ip || 'unknown'`: an absent or empty address is `unknown`. */
  function ClientId(ip: Option<string>): (id: string)
    ensures ip.Some? && ip.value != "" ==> id == ip.value
    ensures ip.None? || ip.value == "" ==> id == "unknown"
  {
    if ip.Some? && ip.value != "" then ip.value else "unknown"
  }

  /** `requests.get(clientId)` */
  function Lookup(m: map<string, Entry>, id: string): Option<Entry>
  {
    if id in m then Some(m[id]) else None
  }

  /**
   * One request of a client whose stored entry is `e`, at time `now`: the
   * entry it leaves behind and the verdict.
   */
  function Admit(e: Option<Entry>, now: int, maxRequests: int, windowMs: int): (Entry, Verdict)
  {
    if e.None? || now > e.value.resetTime then (Entry(1, now + windowMs), Proceed)
    else if e.value.count < maxRequests then (Entry(e.value.count + 1, e.value.resetTime), Proceed)
    else (e.value, TooManyRequests(CeilDiv(e.value.resetTime - now, 1000)))
  }

  /** The map after one request of client `id`. */
  function AfterRequest(m: map<string, Entry>, id: string, now: int, maxRequests: int, windowMs: int): map<string, Entry>
  {
    m[id := Admit(Lookup(m, id), now, maxRequests, windowMs).0]
  }

  /** Every stored count lies between 1 and the limit, or is 1 when the limit is below 1. */
  predicate CountsInRange(m: map<string, Entry>, maxRequests: int)
  {
    forall id | id in m :: 1 <= m[id].count <= Max(1, maxRequests)
  }

  /** The closure `rateLimiter(maxRequests, windowMs)` returns, with the map it captures. */
  class RateLimiter {
    const maxRequests: int
    const windowMs: int
    var requests: map<string, Entry>

    predicate Valid()
      reads this
    {
      CountsInRange(requests, maxRequests)
    }

    /** `rateLimiter(maxRequests = 10, windowMs = 60000)` */
    constructor(maxRequests: Option<int>, windowMs: Option<int>)
      ensures this.maxRequests == (if maxRequests.Some? then maxRequests.value else DefaultMaxRequests)
      ensures this.windowMs == (if windowMs.Some? then windowMs.value else DefaultWindowMs)
      ensures requests == map[] && Valid()
    {
      this.maxRequests := if maxRequests.Some? then maxRequests.value else DefaultMaxRequests;
      this.windowMs := if windowMs.Some? then windowMs.value else DefaultWindowMs;
      requests := map[];
    }

    /** One request from address `ip` at time `now`. */
    method Handle(ip: Option<string>, now: int) returns (v: Verdict)
      requires Valid()
      modifies this
      ensures Valid()
      ensures requests == AfterRequest(old(requests), ClientId(ip), now, maxRequests, windowMs)
      ensures v == Admit(Lookup(old(requests), ClientId(ip)), now, maxRequests, windowMs).1
    {
      var clientId := ClientId(ip);
      if clientId !in requests || now > requests[clientId].resetTime {
        requests := requests[clientId := Entry(1, now + windowMs)];
        v := Proceed;
      } else if requests[clientId].count < maxRequests {
        var e := requests[clientId];
        requests := requests[clientId := Entry(e.count + 1, e.resetTime)];
        v := Proceed;
      } else {
        v := TooManyRequests(CeilDiv(requests[clientId].resetTime - now, 1000));
        assert requests == requests[clientId := requests[clientId]];
      }
      AdmitKeepsCounts(old(requests), clientId, now, maxRequests, windowMs);
    }
  }

  /** A request keeps every stored count in range. */
  lemma AdmitKeepsCounts(m: map<string, Entry>, id: string, now: int, maxRequests: int, windowMs: int)
    requires CountsInRange(m, maxRequests)
    ensures CountsInRange(AfterRequest(m, id, now, maxRequests, windowMs), maxRequests)
  {
    var m' := AfterRequest(m, id, now, maxRequests, windowMs);
    forall k | k in m'
      ensures 1 <= m'[k].count <= Max(1, maxRequests)
    {
      if k == id && id in m {
        assert Lookup(m, id) == Some(m[id]);
      }
    }
  }

  /**
   * The three outcomes: a missing or expired entry starts a new window and
   * passes; within the window a request passes and counts iff the count is
   * below the limit; otherwise it is refused and the entry stays as it was.
   */
  lemma AdmitOutcomes(e: Option<Entry>, now: int, maxRequests: int, windowMs: int)
    ensures var (e', v) := Admit(e, now, maxRequests, windowMs);
            && (e.None? || now > e.value.resetTime ==> e' == Entry(1, now + windowMs) && v == Proceed)
            && (e.Some? && now <= e.value.resetTime ==>
                  (v == Proceed <==> e.value.count < maxRequests)
                  && (v == Proceed ==> e' == Entry(e.value.count + 1, e.value.resetTime))
                  && (v != Proceed ==> e' == e.value))
  {
  }

  /** A refusal tells the client the whole seconds left until the window resets, rounded up, and changes no entry. */
  lemma RefusalLeavesMapAlone(m: map<string, Entry>, id: string, now: int, maxRequests: int, windowMs: int)
    requires Admit(Lookup(m, id), now, maxRequests, windowMs).1.TooManyRequests?
    ensures AfterRequest(m, id, now, maxRequests, windowMs) == m
    ensures var wait := Admit(Lookup(m, id), now, maxRequests, windowMs).1.retryAfter;
            && id in m && 0 <= wait
            && (wait - 1) * 1000 < m[id].resetTime - now <= wait * 1000
  {
    assert id in m;
    assert m[id := m[id]] == m;
  }

  /** The request of one client changes no other client's entry, and adds no other key. */
  lemma OtherClientsUntouched(m: map<string, Entry>, id: string, now: int, maxRequests: int, windowMs: int)
    ensures var m' := AfterRequest(m, id, now, maxRequests, windowMs);
            && m'.Keys == m.Keys + {id}
            && forall k | k in m && k != id :: m'[k] == m[k]
  {
  }

  /** The number of requests that pass when a client sends requests at `times`, starting from entry `e`. */
  function Passes(e: Option<Entry>, times: seq<int>, maxRequests: int, windowMs: int): nat
    decreases |times|
  {
    if times == [] then 0
    else
      var (e', v) := Admit(e, times[0], maxRequests, windowMs);
      (if v == Proceed then 1 else 0) + Passes(Some(e'), times[1..], maxRequests, windowMs)
  }

  /**
   * Requests that arrive no later than the reset time (the reset instant
   * itself included) stay in the current window: no more of them pass than
   * the limit leaves room for.
   */
  lemma {:induction false} WindowBound(e: Entry, times: seq<int>, maxRequests: int, windowMs: int)
    requires forall i | 0 <= i < |times| :: times[i] <= e.resetTime
    ensures Passes(Some(e), times, maxRequests, windowMs) <= Max(0, maxRequests - e.count)
    decreases |times|
  {
    if times != [] {
      var (e', v) := Admit(Some(e), times[0], maxRequests, windowMs);
      assert e'.resetTime == e.resetTime;
      assert forall i | 0 <= i < |times[1..]| :: times[1..][i] <= e'.resetTime by {
        forall i | 0 <= i < |times[1..]| ensures times[1..][i] <= e'.resetTime {
          assert times[1..][i] == times[i + 1];
        }
      }
      WindowBound(e', times[1..], maxRequests, windowMs);
    }
  }

  /**
   * The request that opens a window and every later one up to its reset
   * time: at most `maxRequests` of them pass, and the opening one always
   * does, so a limit below 1 still lets one request through per window.
   */
  lemma AtMostMaxPerWindow(e: Option<Entry>, start: int, later: seq<int>, maxRequests: int, windowMs: int)
    requires e.None? || start > e.value.resetTime
    requires forall i | 0 <= i < |later| :: later[i] <= start + windowMs
    ensures 1 <= Passes(e, [start] + later, maxRequests, windowMs) <= Max(1, maxRequests)
  {
    var times := [start] + later;
    assert times[1..] == later;
    WindowBound(Entry(1, start + windowMs), later, maxRequests, windowMs);
  }

  /** At the reset instant itself a full window still refuses. */
  lemma ResetInstantIsOldWindow(count: int, resetTime: int, maxRequests: int, windowMs: int)
    requires count >= maxRequests
    ensures Admit(Some(Entry(count, resetTime)), resetTime, maxRequests, windowMs).1 == TooManyRequests(0)
    ensures Admit(Some(Entry(count, resetTime)), resetTime + 1, maxRequests, windowMs) == (Entry(1, resetTime + 1 + windowMs), Proceed)
  {
  }

  // ---- sizeLimit ----

  /** `next()`, or 413 with the limit as `maxSize`. */
  datatype SizeVerdict = WithinLimit | TooLarge(maxSize: int)

  const DefaultMaxSize := 10 * 1024 * 1024

  /** The number of leading decimal digits of `s`. */
  function LeadingDigits(s: string): (k: nat)
    ensures k <= |s|
    ensures forall i | 0 <= i < k :: IsDigit(s[i])
    ensures k < |s| ==> !IsDigit(s[k])
  {
    if s == [] || !IsDigit(s[0]) then 0 else 1 + LeadingDigits(s[1..])
  }

  /**
   * `parseInt(s, 10)`: leading whitespace and one sign are skipped, the
   * longest run of digits is read, and no digit at all gives NaN (`None`).
   */
  function ParseIntDecimal(s: string): Option<int>
  {
    var t := s[LeadingSpace(s)..];
    var negative := t != [] && t[0] == '-';
    var u := if t != [] && (t[0] == '-' || t[0] == '+') then t[1..] else t;
    var k := LeadingDigits(u);
    if k == 0 then None
    else
      var n: int := CanvasStyle.DecimalValue(u[..k]);
      Some(if negative then 0 - n else n)
  }

  /** `req.get('content-length') || '0'`: an absent or empty header reads as `0`. */
  function ContentLength(header: Option<string>): Option<int>
  {
    ParseIntDecimal(if header.Some? && header.value != "" then header.value else "0")
  }

  /** `sizeLimit(maxSizeBytes)` applied to one request; NaN is never greater, so it passes. */
  function SizeLimit(header: Option<string>, maxSize: int): (v: SizeVerdict)
    ensures v.TooLarge? ==> v.maxSize == maxSize
  {
    var n := ContentLength(header);
    if n.Some? && n.value > maxSize then TooLarge(maxSize) else WithinLimit
  }

  /** A length the client writes as a plain number is refused iff it exceeds the limit; equal passes. */
  lemma SizeLimitOfNumber(n: nat, maxSize: int)
    ensures SizeLimit(Some(NatToString(n)), maxSize) == (if n > maxSize then TooLarge(maxSize) else WithinLimit)
  {
    var s := NatToString(n);
    assert LeadingSpace(s) == 0 by {
      assert IsDigit(s[0]);
    }
    assert s[0..] == s;
    assert s[0] != '-' && s[0] != '+' by {
      assert IsDigit(s[0]);
    }
    assert LeadingDigits(s) == |s| by {
      LeadingDigitsAll(s);
    }
    assert s[..|s|] == s;
    CanvasStyle.DecimalOfNatToString(n);
  }

  /** A string of digits is all leading digits. */
  lemma {:induction false} LeadingDigitsAll(s: string)
    requires forall i | 0 <= i < |s| :: IsDigit(s[i])
    ensures LeadingDigits(s) == |s|
    decreases |s|
  {
    if s != [] {
      assert forall i | 0 <= i < |s[1..]| :: IsDigit(s[1..][i]) by {
        forall i | 0 <= i < |s[1..]| ensures IsDigit(s[1..][i]) {
          assert s[1..][i] == s[i + 1];
        }
      }
      LeadingDigitsAll(s[1..]);
    }
  }

  /** A missing or empty header counts as length 0, and a header with no digits is NaN: both pass a non-negative limit. */
  lemma MissingOrGarbledLengthPasses(header: Option<string>, maxSize: int)
    requires maxSize >= 0
    requires header.None? || header.value == ""
             || (header.value != [] && !IsJsSpace(header.value[0]) && !IsDigit(header.value[0])
                 && header.value[0] != '-' && header.value[0] != '+')
    ensures SizeLimit(header, maxSize) == WithinLimit
  {
    if header.None? || header.value == "" {
      assert ContentLength(header) == ParseIntDecimal("0");
      assert LeadingDigits("0") == 1;
      assert CanvasStyle.DecimalValue("0") == 0 by {
        assert CanvasStyle.DecimalValue([]) == 0;
        assert "0"[..0] == [];
      }
    } else {
      var s := header.value;
      assert LeadingSpace(s) == 0;
      assert s[0..] == s;
      assert LeadingDigits(s) == 0;
    }
  }
}
