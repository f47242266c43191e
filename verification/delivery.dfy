/** The decisions the delivery tasks take about one full buffer: where
    the router (`full_buffer_selection_go_to_task`) sends it, how its
    housekeeping pass drains the stuck queues, and what the Wi-Fi sender
    (`send_buffer_wifi_task`) does after each HTTP post. */
module Delivery {
  import opened Flags
  import Layout

  /** MAX_RETRY_SEND_WIFI. */
  const MAX_RETRY: nat := 5

  /* ---------------------------------------------------------------------- */
  /* Router                                                                  */
  /* ---------------------------------------------------------------------- */

  /** Queues a full buffer can be sent to: the back of the Wi-Fi, SD, empty
      or full queue. */
  datatype Destination = ToWifi | ToSd | ToEmpty | ToFull

  /** The router as written: it tests the bits of the event-group snapshot
      and the buffer's status byte; when neither link is up the buffer is
      handed back as an empty one. */
  function RouteAsWritten(w: bv8, status: bv8): (r: Destination)
    ensures r == ToWifi <==> WifiConnected in FlagsOf(w)
    ensures r == ToSd <==> WifiConnected !in FlagsOf(w) && SdMounted in FlagsOf(w)
    ensures r == ToEmpty <==> WifiConnected !in FlagsOf(w) && SdMounted !in FlagsOf(w)
  {
    if w & Bit(WifiConnected) != 0 then ToWifi
    else if (w & Bit(WifiConnected) == 0 || status == Layout.STATUS_SENSOR_DATA)
            && w & Bit(SdMounted) != 0 then ToSd
    else ToEmpty
  }

  /** The router as written recycles a buffer as empty exactly when the
      snapshot has neither the link bit nor the card bit, and the status
      byte never changes where a buffer goes. */
  lemma RouteAsWrittenRecycles(w: bv8, status: bv8)
    ensures RouteAsWritten(w, status) == ToEmpty <==> w & (Bit(WifiConnected) | Bit(SdMounted)) == 0
    ensures RouteAsWritten(w, status) == RouteAsWritten(w, Layout.STATUS_SENSOR_DATA)
  {
    MaskUnion(w, Bit(WifiConnected), Bit(SdMounted));
  }

  /** A word misses both bits of a mask union exactly when it misses each. */
  lemma MaskUnion(w: bv8, a: bv8, b: bv8)
    ensures w & (a | b) == 0 <==> w & a == 0 && w & b == 0
  {
  }

  /** The router with the fall-back its comment describes: a buffer that
      can go nowhere returns to the back of the full queue. */
  function Route(w: bv8): (r: Destination)
    ensures r != ToEmpty
    ensures r == ToWifi <==> WifiConnected in FlagsOf(w)
    ensures r == ToSd <==> WifiConnected !in FlagsOf(w) && SdMounted in FlagsOf(w)
    ensures r == ToFull <==> WifiConnected !in FlagsOf(w) && SdMounted !in FlagsOf(w)
  {
    if w & Bit(WifiConnected) != 0 then ToWifi
    else if w & Bit(SdMounted) != 0 then ToSd
    else ToFull
  }

  /** The two routers differ exactly on the recycling case. */
  lemma RoutesAgreeExceptRecycling(w: bv8, status: bv8)
    ensures RouteAsWritten(w, status) == Route(w) <==> RouteAsWritten(w, status) != ToEmpty
    ensures RouteAsWritten(w, status) == ToEmpty <==> Route(w) == ToFull
  {
  }

  /* ---------------------------------------------------------------------- */
  /* Housekeeping drain                                                      */
  /* ---------------------------------------------------------------------- */

  /** One pass of the drain loop as written: the bound `i < count` re-reads
      the count of a queue the body shrinks, so the pass stops half-way. */
  method DrainAsWritten<T>(q: seq<T>, full: seq<T>) returns (rest: seq<T>, full': seq<T>)
    ensures rest == q[(|q| + 1) / 2..]
    ensures full' == full + q[..(|q| + 1) / 2]
    ensures |q| >= 2 ==> |rest| > 0
  {
    rest := q;
    full' := full;
    var i := 0;
    while i < |rest|
      invariant 0 <= i <= |q| && 2 * i <= |q| + 1
      invariant rest == q[i..]
      invariant full' == full + q[..i]
    {
      assert q[..i + 1] == q[..i] + [q[i]];
      full' := full' + [rest[0]];
      rest := rest[1..];
      i := i + 1;
    }
  }

  /** The drain the comment describes: every stuck handle goes to the back
      of the full queue, in order, and the queue ends empty. */
  method Drain<T>(q: seq<T>, full: seq<T>) returns (rest: seq<T>, full': seq<T>)
    ensures rest == []
    ensures full' == full + q
  {
    rest := q;
    full' := full;
    while |rest| > 0
      invariant full' + rest == full + q
    {
      full' := full' + [rest[0]];
      rest := rest[1..];
    }
  }

  /** Neither drain loses or duplicates a handle. */
  lemma DrainConserves<T>(q: seq<T>, full: seq<T>, n: nat)
    requires n <= |q|
    ensures multiset(q[n..]) + multiset(full + q[..n]) == multiset(q) + multiset(full)
  {
    assert q == q[..n] + q[n..];
  }

  /* ---------------------------------------------------------------------- */
  /* Wi-Fi sender                                                            */
  /* ---------------------------------------------------------------------- */

  /** Where the sender puts the buffer after one post. */
  datatype SendAction =
    | Delivered      // back of the empty queue
    | RetryFront     // front of the Wi-Fi queue, one more retry counted
    | ToSdQueue      // back of the SD queue
    | RequeueFront   // front of the Wi-Fi queue, counter kept

  datatype SendOutcome = SendOutcome(action: SendAction, retries: nat)

  /** One iteration of the sender after `http_post_send` reported `ok`,
      with the task-wide retry counter `retries` and the flag word `w`. */
  function SendStep(ok: bool, retries: nat, w: bv8): (o: SendOutcome)
    ensures ok <==> o.action == Delivered
    ensures o.action == RetryFront <==> !ok && retries < MAX_RETRY
    ensures o.action == ToSdQueue <==> !ok && retries >= MAX_RETRY && SdMounted in FlagsOf(w)
    ensures o.action == RetryFront ==> o.retries == retries + 1
    ensures o.action == RequeueFront ==> o.retries == retries
    ensures o.action == Delivered || o.action == ToSdQueue ==> o.retries == 0
    ensures retries <= MAX_RETRY ==> o.retries <= MAX_RETRY
  {
    if ok then SendOutcome(Delivered, 0)
    else if retries < MAX_RETRY then SendOutcome(RetryFront, retries + 1)
    else if w & Bit(SdMounted) != 0 then SendOutcome(ToSdQueue, 0)
    else SendOutcome(RequeueFront, retries)
  }

  /** The counter after `n` consecutive failed posts starting from `r`. */
  function CounterAfter(n: nat, r: nat, w: bv8): nat
  {
    if n == 0 then r else CounterAfter(n - 1, SendStep(false, r, w).retries, w)
  }

  /** Up to MAX_RETRY consecutive failures only count retries: each one
      puts the buffer back at the front of the Wi-Fi queue. */
  lemma {:induction false} FailuresRetry(n: nat, r: nat, w: bv8)
    requires r + n <= MAX_RETRY
    ensures CounterAfter(n, r, w) == r + n
    ensures forall m :: 0 <= m < n ==> SendStep(false, CounterAfter(m, r, w), w).action == RetryFront
  {
    if n > 0 {
      FailuresRetry(n - 1, r + 1, w);
      forall m | 0 <= m < n
        ensures SendStep(false, CounterAfter(m, r, w), w).action == RetryFront
      {
        if m > 0 {
          assert CounterAfter(m, r, w) == CounterAfter(m - 1, r + 1, w);
        }
      }
    }
  }

  /** From a reset counter, a buffer reaches the SD queue on the sixth
      consecutive failure and not before; without a card it is re-queued
      at the front for ever. */
  lemma SixthFailureFallsBack(w: bv8)
    ensures forall m :: 0 <= m < MAX_RETRY ==> SendStep(false, CounterAfter(m, 0, w), w).action == RetryFront
    ensures CounterAfter(MAX_RETRY, 0, w) == MAX_RETRY
    ensures SdMounted in FlagsOf(w) ==> SendStep(false, CounterAfter(MAX_RETRY, 0, w), w).action == ToSdQueue
    ensures SdMounted !in FlagsOf(w) ==> SendStep(false, CounterAfter(MAX_RETRY, 0, w), w) == SendOutcome(RequeueFront, MAX_RETRY)
  {
    FailuresRetry(MAX_RETRY, 0, w);
  }
}
