/**
 One evaluation pass of the flight-alert job (`checkFlightAlerts`, also reached
 through `runManualSearch`): fetch the saved alerts, skip the inactive and the
 expired ones, search flights for the rest, and mail the owner of every alert
 whose search found something, with the cheapest price in the subject.

 The collaborators are inputs. The preferences store is the fetched list, absent
 when the fetch failed. The clock, the flight search and the mailer are answers
 indexed by the position of the alert being processed, so that a failure of one
 alert's search or mail can be stated and its effect on the others compared.
 */
module AlertCheck {

  datatype Option<T> = None | Some(value: T)

  /**
   A saved alert. `departure` is the departure instant; None when the stored date
   does not parse, in which case the comparison with the clock is false and the
   alert is never treated as expired. `priceThreshold` is applied by the search.
   */
  datatype Alert = Alert(
    id: string,
    email: string,
    destination: string,
    departure: Option<int>,
    priceThreshold: int,
    active: bool)

  /** What one call to the flight search gives: an error, or the prices of the flights found. */
  datatype SearchOutcome = SearchFailed | Found(prices: seq<int>)

  /** A notification: recipient, destination and the cheapest price, as the subject carries them. */
  datatype Email = Email(to: string, destination: string, minPrice: int)

  /**
   The collaborators' answers during one pass, for the alert at position k:
   `clock(k)` is the time read while checking its dates (only an active alert's
   dates are checked, so it is never consulted otherwise), `search(k)` what the
   flight search returns, and `delivered(k)` whether formatting the body and
   sending the mail both succeed.
   */
  datatype Collaborators = Collaborators(
    clock: nat -> int,
    search: nat -> SearchOutcome,
    delivered: nat -> bool)

  /** The departure instant lies strictly before `now`. */
  predicate Expired(a: Alert, now: int) {
    a.departure.Some? && a.departure.value < now
  }

  /** The pass calls the flight search for this alert. */
  predicate ShouldSearch(a: Alert, now: int) {
    a.active && !Expired(a, now)
  }

  /** The cheapest of a non-empty list of prices. */
  function MinPrice(prices: seq<int>): (m: int)
    requires |prices| > 0
    ensures m in prices
    ensures forall p :: p in prices ==> m <= p
  {
    if |prices| == 1 then prices[0]
    else
      var rest := MinPrice(prices[1..]);
      assert forall p :: p in prices ==> p == prices[0] || p in prices[1..];
      if prices[0] <= rest then prices[0] else rest
  }

  /** The mail that goes out for one alert, if any. */
  function AlertEmails(a: Alert, now: int, outcome: SearchOutcome, delivered: bool): (r: seq<Email>)
    ensures |r| <= 1
    ensures |r| == 1 <==>
              ShouldSearch(a, now) && outcome.Found? && |outcome.prices| > 0 && delivered
    ensures |r| == 1 ==>
              && r[0].to == a.email
              && r[0].destination == a.destination
              && r[0].minPrice in outcome.prices
              && forall p :: p in outcome.prices ==> r[0].minPrice <= p
  {
    if !ShouldSearch(a, now) then []
    else match outcome
      case SearchFailed => []
      case Found(prices) =>
        if |prices| > 0 && delivered then [Email(a.email, a.destination, MinPrice(prices))]
        else []
  }

  /** The positions in [lo, hi) whose alert the pass searches, in list order. */
  function SearchedIn(alerts: seq<Alert>, w: Collaborators, lo: nat, hi: nat): (r: seq<nat>)
    requires lo <= hi <= |alerts|
    ensures forall k :: k in r <==> lo <= k < hi && ShouldSearch(alerts[k], w.clock(k))
    ensures forall i, j :: 0 <= i < j < |r| ==> r[i] < r[j]
    decreases hi
  {
    if hi == lo then []
    else
      var earlier := SearchedIn(alerts, w, lo, hi - 1);
      assert forall i :: 0 <= i < |earlier| ==> earlier[i] in earlier;
      earlier +
      (if ShouldSearch(alerts[hi - 1], w.clock(hi - 1)) then [hi - 1] else [])
  }

  /** The mails the pass sends for the alerts at positions [lo, hi), in list order. */
  function SentIn(alerts: seq<Alert>, w: Collaborators, lo: nat, hi: nat): (r: seq<Email>)
    requires lo <= hi <= |alerts|
    ensures |r| <= hi - lo
    decreases hi
  {
    if hi == lo then []
    else
      SentIn(alerts, w, lo, hi - 1) +
      AlertEmails(alerts[hi - 1], w.clock(hi - 1), w.search(hi - 1), w.delivered(hi - 1))
  }

  /** The mails of a range are those of its two halves, one after the other. */
  lemma {:induction false} SentSplit(alerts: seq<Alert>, w: Collaborators, lo: nat, mid: nat, hi: nat)
    requires lo <= mid <= hi <= |alerts|
    ensures SentIn(alerts, w, lo, hi) == SentIn(alerts, w, lo, mid) + SentIn(alerts, w, mid, hi)
    decreases hi
  {
    if hi > mid {
      SentSplit(alerts, w, lo, mid, hi - 1);
    }
  }

  /**
   The pass's mails are those of the alerts before position k, then at most one
   for the alert at k, then those of the alerts after it.
   */
  lemma {:induction false} SentAround(alerts: seq<Alert>, w: Collaborators, k: nat)
    requires k < |alerts|
    ensures SentIn(alerts, w, 0, |alerts|) ==
              SentIn(alerts, w, 0, k) +
              AlertEmails(alerts[k], w.clock(k), w.search(k), w.delivered(k)) +
              SentIn(alerts, w, k + 1, |alerts|)
  {
    var n := |alerts|;
    SentSplit(alerts, w, 0, k, n);
    SentSplit(alerts, w, k, k + 1, n);
    var before, after := SentIn(alerts, w, 0, k), SentIn(alerts, w, k + 1, n);
    var own := AlertEmails(alerts[k], w.clock(k), w.search(k), w.delivered(k));
    assert SentIn(alerts, w, k, k + 1) == SentIn(alerts, w, k, k) + own == own;
    assert before + (own + after) == before + own + after;
  }

  /** A mail goes out exactly for the searched alerts whose search found flights and whose mail was delivered. */
  lemma {:induction false} SentMembership(alerts: seq<Alert>, w: Collaborators, lo: nat, hi: nat, e: Email)
    requires lo <= hi <= |alerts|
    ensures e in SentIn(alerts, w, lo, hi) <==>
              exists k :: lo <= k < hi && AlertEmails(alerts[k], w.clock(k), w.search(k), w.delivered(k)) == [e]
    decreases hi
  {
    if lo < hi {
      SentMembership(alerts, w, lo, hi - 1, e);
      var last := AlertEmails(alerts[hi - 1], w.clock(hi - 1), w.search(hi - 1), w.delivered(hi - 1));
      if e in last {
        assert last == [e];
      }
    }
  }

  /** At most one mail per searched alert. */
  lemma {:induction false} SentAtMostSearched(alerts: seq<Alert>, w: Collaborators, lo: nat, hi: nat)
    requires lo <= hi <= |alerts|
    ensures |SentIn(alerts, w, lo, hi)| <= |SearchedIn(alerts, w, lo, hi)|
    decreases hi
  {
    if lo < hi {
      SentAtMostSearched(alerts, w, lo, hi - 1);
    }
  }

  /** An inactive or expired alert is neither searched nor mailed about, and changes nothing else. */
  lemma {:induction false} SkippedAlertIsInert(alerts: seq<Alert>, w: Collaborators, k: nat)
    requires k < |alerts|
    requires !alerts[k].active || Expired(alerts[k], w.clock(k))
    ensures k !in SearchedIn(alerts, w, 0, |alerts|)
    ensures SentIn(alerts, w, 0, |alerts|) ==
              SentIn(alerts, w, 0, k) + SentIn(alerts, w, k + 1, |alerts|)
  {
    SentAround(alerts, w, k);
  }

  /** What a range sends depends only on the collaborators' answers for that range. */
  lemma {:induction false} SentFrame(alerts: seq<Alert>, w: Collaborators, w': Collaborators, lo: nat, hi: nat)
    requires lo <= hi <= |alerts|
    requires forall k :: lo <= k < hi ==>
               w.clock(k) == w'.clock(k) && w.search(k) == w'.search(k) && w.delivered(k) == w'.delivered(k)
    ensures SentIn(alerts, w, lo, hi) == SentIn(alerts, w', lo, hi)
    decreases hi
  {
    if lo < hi {
      SentFrame(alerts, w, w', lo, hi - 1);
    }
  }

  /** What is searched depends only on the alerts and the clock. */
  lemma {:induction false} SearchedFrame(alerts: seq<Alert>, w: Collaborators, w': Collaborators, lo: nat, hi: nat)
    requires lo <= hi <= |alerts|
    requires forall k :: lo <= k < hi ==> w.clock(k) == w'.clock(k)
    ensures SearchedIn(alerts, w, lo, hi) == SearchedIn(alerts, w', lo, hi)
    decreases hi
  {
    if lo < hi {
      SearchedFrame(alerts, w, w', lo, hi - 1);
    }
  }

  /**
   Failure isolation: if the search or the mail for the alert at position j fails,
   the pass still searches the same alerts, and sends exactly the mails it sends
   for every other alert, in the same order, as if j had not failed.
   */
  lemma {:induction false} FailureIsolation(alerts: seq<Alert>, w: Collaborators, w': Collaborators, j: nat)
    requires j < |alerts|
    requires forall k :: k != j ==> w'.search(k) == w.search(k) && w'.delivered(k) == w.delivered(k)
    requires forall k :: w'.clock(k) == w.clock(k)
    requires w'.search(j).SearchFailed? || !w'.delivered(j)
    ensures SearchedIn(alerts, w', 0, |alerts|) == SearchedIn(alerts, w, 0, |alerts|)
    ensures SentIn(alerts, w', 0, |alerts|) ==
              SentIn(alerts, w, 0, j) + SentIn(alerts, w, j + 1, |alerts|)
  {
    SearchedFrame(alerts, w, w', 0, |alerts|);
    SentAround(alerts, w', j);
    SentFrame(alerts, w, w', 0, j);
    SentFrame(alerts, w, w', j + 1, |alerts|);
  }

  /**
   checkFlightAlerts: one pass over the fetched alerts. `fetched` is None when the
   preferences store failed or returned nothing. Returns the positions searched
   and the mails sent, both in list order.
   */
  method CheckFlightAlerts(fetched: Option<seq<Alert>>, w: Collaborators)
    returns (searched: seq<nat>, sent: seq<Email>)
    ensures fetched.None? || fetched.value == [] ==> searched == [] && sent == []
    ensures fetched.Some? ==>
              && searched == SearchedIn(fetched.value, w, 0, |fetched.value|)
              && sent == SentIn(fetched.value, w, 0, |fetched.value|)
  {
    searched, sent := [], [];
    if fetched.None? || |fetched.value| == 0 {
      return;
    }
    var alerts := fetched.value;
    for i := 0 to |alerts|
      invariant searched == SearchedIn(alerts, w, 0, i)
      invariant sent == SentIn(alerts, w, 0, i)
    {
      var alert := alerts[i];
      if !alert.active {
        continue;
      }
      // from here on, failures are caught per alert
      var today := w.clock(i);
      if alert.departure.Some? && alert.departure.value < today {
        continue;
      }
      searched := searched + [i];
      var outcome := w.search(i);
      if outcome.Found? && |outcome.prices| > 0 {
        var minPrice := MinPrice(outcome.prices);
        if w.delivered(i) {
          sent := sent + [Email(alert.email, alert.destination, minPrice)];
        }
      }
    }
  }

  /** runManualSearch: one pass, run on demand. */
  method RunManualSearch(fetched: Option<seq<Alert>>, w: Collaborators)
    returns (searched: seq<nat>, sent: seq<Email>)
    ensures fetched.None? ==> searched == [] && sent == []
    ensures fetched.Some? ==>
              && searched == SearchedIn(fetched.value, w, 0, |fetched.value|)
              && sent == SentIn(fetched.value, w, 0, |fetched.value|)
  {
    searched, sent := CheckFlightAlerts(fetched, w);
  }
}
