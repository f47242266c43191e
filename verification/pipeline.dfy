/** The buffer hand-off pipeline as a state machine. Three buffer handles
    travel between the empty, full, Wi-Fi and SD pointer queues; each task's
    loop body is one atomic step, and the Wi-Fi event handler and the card
    detect task are steps of the environment. The Wi-Fi sender is split
    into its three blocking points (receive, take the Wi-Fi token, post) and
    the clock set-up into its wait for the link, its take of the token and
    its return of it, because another step can run between them. The router and the drain used here are the
    corrected ones; the router as written is modelled alongside. */
module Pipeline {
  import opened Flags
  import opened Delivery
  import Storage

  /** NUMBER_OF_BUFFERS: handles allocated at start-up. */
  const NUMBER_OF_BUFFERS: nat := 3

  type BufId = nat
  /** A payload is identified by its timestamp, which is also its file name. */
  type Name = seq<bv8>

  /** The Wi-Fi sender: idle, holding a buffer while it waits for the Wi-Fi
      token, or holding both while it posts. */
  datatype Sender = Idle | Waiting(buf: BufId) | Sending(buf: BufId)
  /** The SD writer and the replay loader return from their task function
      when `fopen` fails, keeping the handle they had. */
  datatype Task = Running | Exited(held: BufId)
  /** The one-shot clock set-up, which borrows the Wi-Fi token: before its
      wait for the link, past that wait, holding the token, finished. */
  datatype Sntp = NotStarted | Linked | Holding | Done

  /** The four pointer queues: empty, full, to-Wi-Fi and to-SD buffers. */
  datatype Queues = Queues(empty: seq<BufId>, full: seq<BufId>, toWifi: seq<BufId>, toSd: seq<BufId>)

  /** The handles sitting in some queue, with their multiplicity. */
  function Queued(q: Queues): multiset<BufId>
  {
    multiset(q.empty) + multiset(q.full) + multiset(q.toWifi) + multiset(q.toSd)
  }

  lemma Pop(q: seq<BufId>)
    requires |q| > 0
    ensures multiset(q) == multiset{q[0]} + multiset(q[1..])
  {
    assert q == [q[0]] + q[1..];
  }

  /** The router moves the first full buffer to the back of `d`'s queue. */
  function Dispatch(q: Queues, d: Destination): (r: Queues)
    requires |q.full| > 0
    ensures Queued(r) == Queued(q)
    ensures d != ToFull ==> r.full == q.full[1..]
    ensures d == ToFull ==> r.full == q.full[1..] + [q.full[0]]
    ensures r.toWifi == if d == ToWifi then q.toWifi + [q.full[0]] else q.toWifi
    ensures r.toSd == if d == ToSd then q.toSd + [q.full[0]] else q.toSd
    ensures r.empty == if d == ToEmpty then q.empty + [q.full[0]] else q.empty
  {
    var b := q.full[0];
    Pop(q.full);
    Enqueue(q.(full := q.full[1..]), d, b)
  }

  /** `b` joins the back of `d`'s queue. */
  function Enqueue(q: Queues, d: Destination, b: BufId): (r: Queues)
    ensures Queued(r) == Queued(q) + multiset{b}
    ensures r.full == if d == ToFull then q.full + [b] else q.full
    ensures r.toWifi == if d == ToWifi then q.toWifi + [b] else q.toWifi
    ensures r.toSd == if d == ToSd then q.toSd + [b] else q.toSd
    ensures r.empty == if d == ToEmpty then q.empty + [b] else q.empty
  {
    match d
    case ToWifi => q.(toWifi := q.toWifi + [b])
    case ToSd => q.(toSd := q.toSd + [b])
    case ToEmpty => q.(empty := q.empty + [b])
    case ToFull => q.(full := q.full + [b])
  }

  /** The housekeeping drain, run when no full buffer arrived: a stuck
      Wi-Fi queue (link down) and then a stuck SD queue (card out) are
      emptied to the back of the full queue, in order. */
  function Drained(q: Queues, linkDown: bool, cardOut: bool): (r: Queues)
    ensures Queued(r) == Queued(q) && r.empty == q.empty
    ensures r.full == q.full + (if linkDown then q.toWifi else []) + (if cardOut then q.toSd else [])
    ensures linkDown ==> r.toWifi == []
    ensures !linkDown ==> r.toWifi == q.toWifi
    ensures cardOut ==> r.toSd == []
    ensures !cardOut ==> r.toSd == q.toSd
    ensures !linkDown && !cardOut ==> r == q
  {
    var q1 := if linkDown then AllWifi(q) else q;
    if cardOut then AllSd(q1) else q1
  }

  /** A full pass over the Wi-Fi queue. */
  function AllWifi(q: Queues): (r: Queues)
    ensures Queued(r) == Queued(q) && r.empty == q.empty && r.toSd == q.toSd
    ensures r.full == q.full + q.toWifi && r.toWifi == []
  {
    q.(full := q.full + q.toWifi, toWifi := [])
  }

  /** A full pass over the SD queue. */
  function AllSd(q: Queues): (r: Queues)
    ensures Queued(r) == Queued(q) && r.empty == q.empty && r.toWifi == q.toWifi
    ensures r.full == q.full + q.toSd && r.toSd == []
  {
    q.(full := q.full + q.toSd, toSd := [])
  }

  /** The drain pass as written moves the first half (rounded up) of a queue. */
  function DrainedAsWritten(q: Queues, linkDown: bool, cardOut: bool): (r: Queues)
    ensures Queued(r) == Queued(q) && r.empty == q.empty
    ensures r.full == q.full + (if linkDown then q.toWifi[..(|q.toWifi| + 1) / 2] else [])
                             + (if cardOut then q.toSd[..(|q.toSd| + 1) / 2] else [])
    ensures linkDown ==> r.toWifi == q.toWifi[(|q.toWifi| + 1) / 2..]
    ensures !linkDown ==> r.toWifi == q.toWifi
    ensures cardOut ==> r.toSd == q.toSd[(|q.toSd| + 1) / 2..]
    ensures !cardOut ==> r.toSd == q.toSd
  {
    var q1 := if linkDown then HalfWifi(q) else q;
    if cardOut then HalfSd(q1) else q1
  }

  lemma Split(a: seq<BufId>, h: nat)
    requires h <= |a|
    ensures multiset(a[..h]) + multiset(a[h..]) == multiset(a)
  {
    assert a == a[..h] + a[h..];
  }

  /** One as-written pass over the Wi-Fi queue. */
  function HalfWifi(q: Queues): (r: Queues)
    ensures Queued(r) == Queued(q) && r.empty == q.empty && r.toSd == q.toSd
    ensures r.full == q.full + q.toWifi[..(|q.toWifi| + 1) / 2]
    ensures r.toWifi == q.toWifi[(|q.toWifi| + 1) / 2..]
  {
    var h := (|q.toWifi| + 1) / 2;
    Split(q.toWifi, h);
    q.(full := q.full + q.toWifi[..h], toWifi := q.toWifi[h..])
  }

  /** One as-written pass over the SD queue. */
  function HalfSd(q: Queues): (r: Queues)
    ensures Queued(r) == Queued(q) && r.empty == q.empty && r.toWifi == q.toWifi
    ensures r.full == q.full + q.toSd[..(|q.toSd| + 1) / 2]
    ensures r.toSd == q.toSd[(|q.toSd| + 1) / 2..]
  {
    var h := (|q.toSd| + 1) / 2;
    Split(q.toSd, h);
    q.(full := q.full + q.toSd[..h], toSd := q.toSd[h..])
  }

  /** Where the Wi-Fi sender puts its buffer after a post. */
  function Place(q: Queues, b: BufId, a: SendAction): (r: Queues)
    ensures Queued(r) == Queued(q) + multiset{b}
    ensures a == Delivered ==> r == q.(empty := q.empty + [b])
    ensures a == ToSdQueue ==> r == q.(toSd := q.toSd + [b])
    ensures a == RetryFront || a == RequeueFront ==> r == q.(toWifi := [b] + q.toWifi)
  {
    match a
    case Delivered => q.(empty := q.empty + [b])
    case ToSdQueue => q.(toSd := q.toSd + [b])
    case RetryFront => q.(toWifi := [b] + q.toWifi)
    case RequeueFront => q.(toWifi := [b] + q.toWifi)
  }

  datatype State = State(
    q: Queues,
    names: seq<Name>,           // queue_filename_list
    flags: set<Flag>,           // flags_hardware_available
    pin: bv1,                   // last_state of the card-detect task
    retries: nat,               // retry_times of the Wi-Fi sender
    sender: Sender, sntp: Sntp,
    writer: Task, replay: Task,
    listerReady: bool,          // the lister is at the top of its loop
    payload: map<BufId, Name>,  // the timestamp each buffer currently carries
    card: set<Name>,            // files in the data directory
    posted: set<Name>)          // payloads the server accepted

  function Pay(p: map<BufId, Name>, b: BufId): Name
  {
    if b in p then p[b] else []
  }

  function PayloadOf(s: State, b: BufId): Name
  {
    Pay(s.payload, b)
  }

  /* ---------------------------------------------------------------------- */
  /* Start-up                                                                */
  /* ---------------------------------------------------------------------- */

  /** All handles in the empty queue, every flag cleared, then the lister
      raises FILES_AVAILABLE and the card-detect task's boot check runs. */
  function Init(level: bv1, mountOk: bool): (r: State)
    ensures Queued(r.q) == AllHandles && r.q.full == [] && r.q.toWifi == [] && r.q.toSd == []
    ensures r.flags - SdFlags == {FilesAvailable}
    ensures SdMounted in r.flags <==> level == 0 && mountOk
    ensures r.sender.Idle? && r.sntp.NotStarted? && r.writer.Running? && r.replay.Running?
    ensures r.names == [] && r.card == {} && r.posted == {}
  {
    var cd := CardBoot({FilesAvailable}, level, mountOk);
    State(Queues([0, 1, 2], [], [], []), [], cd.flags, cd.last, 0, Idle, NotStarted,
          Running, Running, true, map[], {}, {})
  }

  /* ---------------------------------------------------------------------- */
  /* Task loop bodies; a blocked task leaves the state unchanged             */
  /* ---------------------------------------------------------------------- */

  /** fill_buffer_with_sensor_task: one duty cycle fills the first empty
      buffer and stamps it with the clock's reading `stamp`. */
  function SampleStep(s: State, stamp: Name): (r: State)
    ensures Queued(r.q) == Queued(s.q)
    ensures |s.q.empty| == 0 ==> r == s
    ensures |s.q.empty| > 0 ==> (r.q.empty == s.q.empty[1..] && r.q.full == s.q.full + [s.q.empty[0]]
                                && r.q.toWifi == s.q.toWifi && r.q.toSd == s.q.toSd
                                && r.payload == s.payload[s.q.empty[0] := stamp]
                                && r == s.(q := r.q, payload := r.payload))
  {
    if |s.q.empty| == 0 then s
    else
      Pop(s.q.empty);
      var b := s.q.empty[0];
      s.(q := s.q.(empty := s.q.empty[1..], full := s.q.full + [b]), payload := s.payload[b := stamp])
  }

  /** full_buffer_selection_go_to_task with the corrected router and drain:
      a full buffer, if one arrived, goes where the flag snapshot `w` says;
      otherwise the stuck queues are drained. */
  function Routed(q: Queues, w: bv8): (r: Queues)
    ensures Queued(r) == Queued(q) && r.empty == q.empty
    ensures |q.full| > 0 && WifiConnected in FlagsOf(w) ==>
              r.full == q.full[1..] && r.toWifi == q.toWifi + [q.full[0]] && r.toSd == q.toSd
    ensures |q.full| > 0 && WifiConnected !in FlagsOf(w) && SdMounted in FlagsOf(w) ==>
              r.full == q.full[1..] && r.toSd == q.toSd + [q.full[0]] && r.toWifi == q.toWifi
    ensures |q.full| > 0 && WifiConnected !in FlagsOf(w) && SdMounted !in FlagsOf(w) ==>
              r.full == q.full[1..] + [q.full[0]] && r.toWifi == q.toWifi && r.toSd == q.toSd
    ensures |q.full| == 0 ==> r == Drained(q, WifiConnected !in FlagsOf(w), SdMounted !in FlagsOf(w))
  {
    if |q.full| == 0 then Drained(q, w & Bit(WifiConnected) == 0, w & Bit(SdMounted) == 0)
    else Dispatch(q, Route(w))
  }

  function RouterStep(s: State): (r: State)
    ensures r == s.(q := r.q)
    ensures Queued(r.q) == Queued(s.q) && r.q.empty == s.q.empty
    ensures |s.q.full| > 0 ==>
              r.q.full == s.q.full[1..] + (if WifiConnected in s.flags || SdMounted in s.flags then [] else [s.q.full[0]])
    ensures |s.q.full| > 0 && WifiConnected in s.flags ==>
              r.q.toWifi == s.q.toWifi + [s.q.full[0]] && r.q.toSd == s.q.toSd
    ensures |s.q.full| > 0 && WifiConnected !in s.flags && SdMounted in s.flags ==>
              r.q.toSd == s.q.toSd + [s.q.full[0]] && r.q.toWifi == s.q.toWifi
    ensures |s.q.full| > 0 && WifiConnected !in s.flags && SdMounted !in s.flags ==>
              r.q.toWifi == s.q.toWifi && r.q.toSd == s.q.toSd
    ensures |s.q.full| == 0 ==> r.q == Drained(s.q, WifiConnected !in s.flags, SdMounted !in s.flags)
  {
    WordRoundTrip(s.flags, 0);
    s.(q := Routed(s.q, Word(s.flags)))
  }

  /** The router as written; `status` is the buffer's status byte. */
  function RoutedAsWritten(q: Queues, w: bv8, status: bv8): (r: Queues)
    ensures Queued(r) == Queued(q)
  {
    if |q.full| == 0 then DrainedAsWritten(q, w & Bit(WifiConnected) == 0, w & Bit(SdMounted) == 0)
    else Dispatch(q, RouteAsWritten(w, status))
  }

  function RouterStepAsWritten(s: State, status: bv8): (r: State)
    ensures r == s.(q := r.q)
    ensures Queued(r.q) == Queued(s.q)
    ensures |s.q.full| > 0 && WifiConnected !in s.flags && SdMounted !in s.flags ==>
              r.q.empty == s.q.empty + [s.q.full[0]]
  {
    WordRoundTrip(s.flags, 0);
    s.(q := RoutedAsWritten(s.q, Word(s.flags), status))
  }

  /** send_buffer_wifi_task, first blocking point: take a buffer. */
  function ReceiveStep(s: State): (r: State)
    ensures r == s.(sender := r.sender, q := r.q)
    ensures r.sender.Waiting? <==> s.sender.Waiting? || (s.sender.Idle? && |s.q.toWifi| > 0)
    ensures s.sender.Idle? && |s.q.toWifi| > 0 ==>
              r.sender.buf == s.q.toWifi[0] && Queued(r.q) + multiset{r.sender.buf} == Queued(s.q)
              && r.q == s.q.(toWifi := s.q.toWifi[1..])
    ensures !(s.sender.Idle? && |s.q.toWifi| > 0) ==> r == s
  {
    if !(s.sender.Idle? && |s.q.toWifi| > 0) then s
    else
      Pop(s.q.toWifi);
      s.(sender := Waiting(s.q.toWifi[0]), q := s.q.(toWifi := s.q.toWifi[1..]))
  }

  /** Second blocking point: wait for WIFI_AVAILABLE and clear it. */
  function AcquireStep(s: State): (r: State)
    ensures r == s.(sender := r.sender, flags := r.flags)
    ensures r.sender.Sending? <==> s.sender.Sending? || (s.sender.Waiting? && WifiAvailable in s.flags)
    ensures s.sender.Waiting? && WifiAvailable in s.flags ==>
              r.sender.buf == s.sender.buf && r.flags == s.flags - {WifiAvailable}
    ensures !(s.sender.Waiting? && WifiAvailable in s.flags) ==> r == s
  {
    if s.sender.Waiting? && WifiAvailable in s.flags
    then s.(sender := Sending(s.sender.buf), flags := s.flags - {WifiAvailable})
    else s
  }

  /** The post, whose success `ok` the server decides, the hand-over the
      retry logic chooses, and the token returned. */
  function PostStep(s: State, ok: bool): (r: State)
    ensures !s.sender.Sending? ==> r == s
    ensures s.sender.Sending? ==> (r.sender.Idle? && WifiAvailable in r.flags
                                 && Queued(r.q) == Queued(s.q) + multiset{s.sender.buf}
                                 && r.flags - {WifiAvailable} == s.flags - {WifiAvailable})
    ensures s.sender.Sending? && ok ==> r.q.empty == s.q.empty + [s.sender.buf]
                                        && r.posted == s.posted + {PayloadOf(s, s.sender.buf)}
    ensures !ok ==> r.posted == s.posted && r.q.empty == s.q.empty
    ensures r.card == s.card && r.payload == s.payload && r.names == s.names
    ensures r == s.(sender := r.sender, retries := r.retries, flags := r.flags, q := r.q, posted := r.posted)
    ensures s.sender.Sending? && ok ==>
              r.q == s.q.(empty := s.q.empty + [s.sender.buf]) && r.retries == 0
    ensures s.sender.Sending? && !ok && s.retries < MAX_RETRY ==>
              r.q == s.q.(toWifi := [s.sender.buf] + s.q.toWifi) && r.retries == s.retries + 1
    ensures s.sender.Sending? && !ok && s.retries >= MAX_RETRY && SdMounted in s.flags ==>
              r.q == s.q.(toSd := s.q.toSd + [s.sender.buf]) && r.retries == 0
    ensures s.sender.Sending? && !ok && s.retries >= MAX_RETRY && SdMounted !in s.flags ==>
              r.q == s.q.(toWifi := [s.sender.buf] + s.q.toWifi) && r.retries == s.retries
  {
    WordRoundTrip(s.flags, 0);
    if !s.sender.Sending? then s
    else
      var b := s.sender.buf;
      var o := SendStep(ok, s.retries, Word(s.flags));
      s.(sender := Idle, retries := o.retries, flags := s.flags + {WifiAvailable},
         q := Place(s.q, b, o.action),
         posted := if o.action == Delivered then s.posted + {PayloadOf(s, b)} else s.posted)
  }

  /** send_buffer_to_SD_task: with the SD token, store the first buffer of
      the SD queue under its timestamp; if `fopen` fails the task returns
      holding the buffer and the token. */
  function WriteStep(s: State, fopenOk: bool): (r: State)
    ensures r == s.(q := r.q, card := r.card, flags := r.flags, writer := r.writer)
    ensures !(s.writer.Running? && |s.q.toSd| > 0 && SdAvailable in s.flags) ==> r == s
    ensures s.writer.Running? && |s.q.toSd| > 0 && SdAvailable in s.flags ==>
              && r.q.toSd == s.q.toSd[1..] && r.q.full == s.q.full && r.q.toWifi == s.q.toWifi
              && r.payload == s.payload && r.names == s.names && r.sender == s.sender
    ensures s.writer.Running? && |s.q.toSd| > 0 && SdAvailable in s.flags && fopenOk ==>
              && r.card == s.card + {PayloadOf(s, s.q.toSd[0])}
              && r.q.empty == s.q.empty + [s.q.toSd[0]]
              && r.flags == s.flags + {FilesAvailable} && r.writer.Running?
    ensures s.writer.Running? && |s.q.toSd| > 0 && SdAvailable in s.flags && !fopenOk ==>
              && r.writer == Exited(s.q.toSd[0]) && r.card == s.card && r.q.empty == s.q.empty
              && r.flags == s.flags - {SdAvailable}
  {
    if !(s.writer.Running? && |s.q.toSd| > 0 && SdAvailable in s.flags) then s
    else
      var b := s.q.toSd[0];
      if fopenOk then
        s.(q := s.q.(toSd := s.q.toSd[1..], empty := s.q.empty + [b]), card := s.card + {PayloadOf(s, b)},
           flags := s.flags + {SdAvailable, FilesAvailable})
      else s.(q := s.q.(toSd := s.q.toSd[1..]), writer := Exited(b), flags := s.flags - {SdAvailable})
  }

  /** `dir` is a `readdir` order of the data directory: every file once. */
  predicate Listing(card: set<Name>, dir: seq<Name>)
  {
    && (forall i :: 0 <= i < |dir| ==> dir[i] in card)
    && (forall n :: n in card ==> n in dir)
    && (forall i, j :: 0 <= i < j < |dir| ==> dir[i] != dir[j])
  }

  /** get_filename_list_task: with the SD token, queue the listing window
      that starts at the number of names already queued (the corrected
      count: rows actually read); fewer than MAX_OPEN_FILES clears
      FILES_AVAILABLE. The task then waits for FILES and CONNECTED. */
  function ListStep(s: State, dir: seq<Name>, dirOpened: bool): (r: State)
    ensures r == s.(names := r.names, listerReady := r.listerReady, flags := r.flags)
    ensures |s.names| <= |r.names| && r.names[..|s.names|] == s.names
    ensures |r.names| <= |s.names| + Storage.MAX_OPEN_FILES
    ensures r.flags == s.flags || r.flags == s.flags - {FilesAvailable}
    ensures r != s ==>
              Storage.EntriesHoldNames(dir) && r.names == s.names + (if dirOpened then Storage.Window(dir, Storage.MAX_OPEN_FILES, |s.names|) else [])
    ensures r != s && |r.names| < |s.names| + Storage.MAX_OPEN_FILES ==> FilesAvailable !in r.flags
    ensures s.listerReady && !r.listerReady <==> r != s
  {
    if !(s.listerReady && SdAvailable in s.flags && Storage.EntriesHoldNames(dir) && Listing(s.card, dir)) then s
    else
      var rows := if dirOpened then Storage.Window(dir, Storage.MAX_OPEN_FILES, |s.names|) else [];
      s.(names := s.names + rows, listerReady := false,
         flags := if |rows| < Storage.MAX_OPEN_FILES then s.flags - {FilesAvailable} else s.flags)
  }

  /** The lister's wait for FILES_AVAILABLE and WIFI_CONNECTED together. */
  function WakeStep(s: State): (r: State)
    ensures r == s.(listerReady := r.listerReady)
    ensures r.listerReady <==> s.listerReady || (FilesAvailable in s.flags && WifiConnected in s.flags)
  {
    if !s.listerReady && FilesAvailable in s.flags && WifiConnected in s.flags
    then s.(listerReady := true)
    else s
  }

  /** The replay task can run its body: link up, a name queued, the SD
      token and an empty buffer at hand, and a file to open when `fopen`
      succeeds. */
  predicate ReplayReady(s: State, fopenOk: bool)
  {
    && s.replay.Running? && WifiConnected in s.flags && |s.names| > 0
    && SdAvailable in s.flags && |s.q.empty| > 0 && (fopenOk ==> s.names[0] in s.card)
  }

  /** fill_buffer_with_sd_task: with the link up, a queued name, the SD
      token and an empty buffer, read the file back into the buffer, delete
      it and queue the buffer as full. `fopen` cannot succeed on a name that
      is no longer on the card; when it fails the task returns holding the
      empty buffer and the token. */
  function ReplayStep(s: State, fopenOk: bool): (r: State)
    ensures r == s.(names := r.names, q := r.q, payload := r.payload, card := r.card, flags := r.flags,
                    replay := r.replay)
    ensures !fopenOk ==> r.payload == s.payload
    ensures !ReplayReady(s, fopenOk) ==> r == s
    ensures r != s ==> (|s.names| > 0 && |s.q.empty| > 0 && r.names == s.names[1..]
                       && r.q.empty == s.q.empty[1..] && r.q.toWifi == s.q.toWifi && r.q.toSd == s.q.toSd
                       && r.sender == s.sender && r.posted == s.posted)
    ensures r != s && fopenOk ==> (s.names[0] in s.card && r.card == s.card - {s.names[0]}
                                  && r.q.full == s.q.full + [s.q.empty[0]]
                                  && PayloadOf(r, s.q.empty[0]) == s.names[0] && r.flags == s.flags
                                  && r.payload == s.payload[s.q.empty[0] := s.names[0]])
    ensures r != s && !fopenOk ==> (r.replay == Exited(s.q.empty[0]) && r.card == s.card
                                   && r.q.full == s.q.full && r.flags == s.flags - {SdAvailable})
  {
    if !ReplayReady(s, fopenOk) then s
    else
      var n := s.names[0];
      var b := s.q.empty[0];
      if fopenOk then
        s.(names := s.names[1..], q := s.q.(empty := s.q.empty[1..], full := s.q.full + [b]),
           payload := s.payload[b := n], card := s.card - {n})
      else s.(names := s.names[1..], q := s.q.(empty := s.q.empty[1..]), replay := Exited(b),
              flags := s.flags - {SdAvailable})
  }

  /** sntp_config: wait for WIFI_CONNECTED, leaving the bit set. */
  function SntpLinkStep(s: State): (r: State)
    ensures r == s.(sntp := r.sntp)
    ensures r.sntp.Linked? <==> s.sntp.Linked? || (s.sntp.NotStarted? && WifiConnected in s.flags)
    ensures r != s ==> s.sntp.NotStarted? && r.sntp.Linked?
  {
    if s.sntp.NotStarted? && WifiConnected in s.flags then s.(sntp := Linked) else s
  }

  /** sntp_config: past the link wait, take the Wi-Fi token by waiting for
      WIFI_AVAILABLE and clearing it; the link is not looked at again. */
  function SntpBeginStep(s: State): (r: State)
    ensures r == s.(sntp := r.sntp, flags := r.flags)
    ensures r.sntp.Holding? <==> s.sntp.Holding? || (s.sntp.Linked? && WifiAvailable in s.flags)
    ensures r != s ==> WifiAvailable in s.flags && r.flags == s.flags - {WifiAvailable}
  {
    if s.sntp.Linked? && WifiAvailable in s.flags
    then s.(sntp := Holding, flags := s.flags - {WifiAvailable})
    else s
  }

  /** sntp_config: return the token once the clock has been read. */
  function SntpEndStep(s: State): (r: State)
    ensures r == s.(sntp := r.sntp, flags := r.flags)
    ensures !r.sntp.Holding?
    ensures s.sntp.Holding? ==> r.sntp.Done? && r.flags == s.flags + {WifiAvailable}
    ensures !s.sntp.Holding? ==> r == s
  {
    if s.sntp.Holding? then s.(sntp := Done, flags := s.flags + {WifiAvailable}) else s
  }

  /* ---------------------------------------------------------------------- */
  /* Steps                                                                   */
  /* ---------------------------------------------------------------------- */

  datatype Event =
    | Sample(stamp: Name)
    | Router
    | Receive
    | Acquire
    | Post(ok: bool)
    | WriteSd(fopenOk: bool)
    | ListFiles(dir: seq<Name>, dirOpened: bool)
    | Wake
    | Replay(loadOk: bool)
    | SntpLink
    | SntpBegin
    | SntpEnd
    | Wifi(ev: WifiEvent)
    | Card(first: bv1, second: bv1, mountOk: bool)

  function Step(s: State, e: Event): (r: State)
    ensures !e.Card? ==> r.pin == s.pin
    ensures e.Wifi? ==> r == s.(flags := r.flags) && r.flags - WifiFlags == s.flags - WifiFlags
    ensures e.Card? ==> r == s.(pin := r.pin, flags := r.flags) && r.flags - SdFlags == s.flags - SdFlags
    ensures r.card != s.card ==> e.WriteSd? || e.Replay?
    ensures s.posted <= r.posted && (r.posted != s.posted ==> e.Post?)
  {
    match e
    case Sample(stamp) => SampleStep(s, stamp)
    case Router => RouterStep(s)
    case Receive => ReceiveStep(s)
    case Acquire => AcquireStep(s)
    case Post(ok) => PostStep(s, ok)
    case WriteSd(ok) => WriteStep(s, ok)
    case ListFiles(dir, dirOpened) => ListStep(s, dir, dirOpened)
    case Wake => WakeStep(s)
    case Replay(ok) => ReplayStep(s, ok)
    case SntpLink => SntpLinkStep(s)
    case SntpBegin => SntpBeginStep(s)
    case SntpEnd => SntpEndStep(s)
    case Wifi(ev) => s.(flags := OnWifiEvent(s.flags, ev))
    case Card(first, second, ok) =>
      var cd := OnCardDetect(CardDetect(s.pin, s.flags), first, second, ok);
      s.(pin := cd.last, flags := cd.flags)
  }

  function Run(s: State, es: seq<Event>): (r: State)
    ensures s.posted <= r.posted
    ensures (forall i :: 0 <= i < |es| ==> !es[i].Card?) ==> r.pin == s.pin
    decreases |es|
  {
    if |es| == 0 then s else Run(Step(s, es[0]), es[1..])
  }

  /* ---------------------------------------------------------------------- */
  /* Invariants                                                              */
  /* ---------------------------------------------------------------------- */

  function SenderHeld(x: Sender): multiset<BufId>
  {
    if x.Idle? then multiset{} else multiset{x.buf}
  }

  function TaskHeld(t: Task): multiset<BufId>
  {
    if t.Exited? then multiset{t.held} else multiset{}
  }

  /** Every place a handle can be: the four pointer queues, the sender, and
      the two tasks that may have returned holding one. */
  function Handles(s: State): multiset<BufId>
  {
    Queued(s.q) + SenderHeld(s.sender) + TaskHeld(s.writer) + TaskHeld(s.replay)
  }
  const AllHandles: multiset<BufId> := multiset{0, 1, 2}

  /** How many tasks believe they hold the Wi-Fi token. */
  function WifiHolders(s: State): nat
  {
    (if s.sender.Sending? then 1 else 0) + (if s.sntp.Holding? then 1 else 0)
  }

  /** The Wi-Fi token is a mutex: at most one holder, and none while the
      bit is set. */
  predicate WifiTokenOk(s: State)
  {
    WifiHolders(s) <= 1 && (WifiAvailable in s.flags ==> WifiHolders(s) == 0)
  }

  /** The SD token is only offered while a card is mounted. */
  predicate SdTokenOk(s: State)
  {
    SdAvailable in s.flags ==> SdMounted in s.flags
  }

  predicate Inv(s: State)
  {
    Handles(s) == AllHandles && s.retries <= MAX_RETRY && WifiTokenOk(s) && SdTokenOk(s)
  }

  /** The one environment step the invariant cannot absorb: an address
      arriving while some task holds the Wi-Fi token. */
  predicate Admissible(s: State, e: Event)
  {
    !(e.Wifi? && e.ev.GotIp? && WifiHolders(s) > 0)
  }

  /** Every event of the run is admissible in the state the run has
      reached when it arrives. */
  predicate AdmissibleRun(s: State, es: seq<Event>)
  {
    forall i :: 0 <= i < |es| ==> Admissible(Run(s, es[..i]), es[i])
  }

  /** An admissible run starts with an admissible event and goes on
      admissibly from the state that event leads to. */
  lemma AdmissibleRunSplit(s: State, es: seq<Event>)
    requires |es| > 0 && AdmissibleRun(s, es)
    ensures Admissible(s, es[0]) && AdmissibleRun(Step(s, es[0]), es[1..])
  {
    assert es[..0] == [];
    forall i | 0 <= i < |es| - 1
      ensures Admissible(Run(Step(s, es[0]), es[1..][..i]), es[1..][i])
    {
      var p := es[..i + 1];
      assert p[0] == es[0] && p[1..] == es[1..][..i];
      assert Run(s, p) == Run(Step(s, es[0]), es[1..][..i]);
      assert es[1..][i] == es[i + 1];
    }
  }

  lemma InitInv(level: bv1, mountOk: bool)
    ensures Inv(Init(level, mountOk))
    ensures Handles(Init(level, mountOk)) == AllHandles
  {
  }

  lemma SampleConserves(s: State, stamp: Name)
    ensures Handles(SampleStep(s, stamp)) == Handles(s)
  {
    if |s.q.empty| > 0 { Pop(s.q.empty); }
  }

  lemma ReceiveConserves(s: State)
    ensures Handles(ReceiveStep(s)) == Handles(s)
  {
    if s.sender.Idle? && |s.q.toWifi| > 0 { Pop(s.q.toWifi); }
  }

  lemma WriteConserves(s: State, ok: bool)
    ensures Handles(WriteStep(s, ok)) == Handles(s)
  {
    var r := WriteStep(s, ok);
    if s.writer.Running? && |s.q.toSd| > 0 && SdAvailable in s.flags {
      var b := s.q.toSd[0];
      Pop(s.q.toSd);
      assert r.sender == s.sender && r.replay == s.replay;
      assert r.q.full == s.q.full && r.q.toWifi == s.q.toWifi && r.q.toSd == s.q.toSd[1..];
      if ok {
        assert r.q.empty == s.q.empty + [b] && r.writer == s.writer;
        assert multiset(r.q.empty) == multiset(s.q.empty) + multiset{b};
        assert Queued(r.q) == Queued(s.q);
      } else {
        assert r.q.empty == s.q.empty && TaskHeld(r.writer) == multiset{b} && TaskHeld(s.writer) == multiset{};
        assert Queued(r.q) + multiset{b} == Queued(s.q);
      }
    }
  }

  lemma ReplayConserves(s: State, ok: bool)
    ensures Handles(ReplayStep(s, ok)) == Handles(s)
  {
    var r := ReplayStep(s, ok);
    if r != s {
      var b := s.q.empty[0];
      Pop(s.q.empty);
      if ok {
        assert Queued(r.q) == Queued(s.q);
      } else {
        assert Queued(r.q) + multiset{b} == Queued(s.q);
      }
    }
  }

  lemma RouterConserves(s: State)
    ensures Handles(RouterStep(s)) == Handles(s)
  {
  }

  lemma PostConserves(s: State, ok: bool)
    ensures Handles(PostStep(s, ok)) == Handles(s)
  {
  }

  /** Steps that only move flags or names leave the handles where they are. */
  lemma FlagStepsConserve(s: State, e: Event)
    requires e.Acquire? || e.ListFiles? || e.Wake? || e.SntpLink? || e.SntpBegin? || e.SntpEnd? || e.Wifi? || e.Card?
    ensures Step(s, e).q == s.q && Step(s, e).sender.Idle? == s.sender.Idle?
    ensures Step(s, e).writer == s.writer && Step(s, e).replay == s.replay
    ensures Handles(Step(s, e)) == Handles(s)
  {
  }

  /** No step creates, drops or duplicates a handle. */
  lemma StepConservesHandles(s: State, e: Event)
    ensures Handles(Step(s, e)) == Handles(s)
  {
    match e
    case Sample(stamp) => SampleConserves(s, stamp);
    case Router => RouterConserves(s);
    case Receive => ReceiveConserves(s);
    case Post(ok) => PostConserves(s, ok);
    case WriteSd(ok) => WriteConserves(s, ok);
    case Replay(ok) => ReplayConserves(s, ok);
    case _ => FlagStepsConserve(s, e);
  }

  /** The router as written keeps every handle too: what it loses is the
      payload (see RouterAsWrittenDropsPayload). */
  lemma RouterAsWrittenConserves(s: State, status: bv8)
    ensures Handles(RouterStepAsWritten(s, status)) == Handles(s)
  {
  }

  /* ---------------------------------------------------------------------- */
  /* The busy tokens                                                         */
  /* ---------------------------------------------------------------------- */

  /** Steps other than the token takers and givers, the Wi-Fi events and
      the card detect leave the Wi-Fi token and its holders alone. */
  lemma WifiTokenUntouched(s: State, e: Event)
    requires e.Sample? || e.Router? || e.Receive? || e.WriteSd? || e.ListFiles? || e.Wake? || e.Replay?
    ensures WifiAvailable in Step(s, e).flags <==> WifiAvailable in s.flags
    ensures WifiHolders(Step(s, e)) == WifiHolders(s)
  {
    var r := Step(s, e);
    var x: State;
    if e.Sample? {
      x := SampleStep(s, e.stamp);
    } else if e.Router? {
      x := RouterStep(s);
    } else if e.Receive? {
      x := ReceiveStep(s);
    } else if e.WriteSd? {
      x := WriteStep(s, e.fopenOk);
    } else if e.ListFiles? {
      x := ListStep(s, e.dir, e.dirOpened);
    } else if e.Wake? {
      x := WakeStep(s);
    } else {
      x := ReplayStep(s, e.loadOk);
    }
    assert r == x;
    WifiSame(s, x);
  }

  /** A step that leaves the SNTP task, the sender's phase and every flag
      but the SD ones alone leaves the Wi-Fi token alone. */
  lemma WifiSame(s: State, r: State)
    requires r.sntp == s.sntp && r.sender.Sending? == s.sender.Sending?
    requires r.flags - {SdAvailable, FilesAvailable} == s.flags - {SdAvailable, FilesAvailable}
    ensures WifiAvailable in r.flags <==> WifiAvailable in s.flags
    ensures WifiHolders(r) == WifiHolders(s)
  {
    assert WifiAvailable in r.flags <==> WifiAvailable in r.flags - {SdAvailable, FilesAvailable};
  }

  lemma CardKeepsWifiToken(s: State, first: bv1, second: bv1, ok: bool)
    ensures WifiAvailable in Step(s, Card(first, second, ok)).flags <==> WifiAvailable in s.flags
    ensures WifiHolders(Step(s, Card(first, second, ok))) == WifiHolders(s)
  {
    var cd := OnCardDetect(CardDetect(s.pin, s.flags), first, second, ok);
    assert WifiAvailable !in SdFlags;
    assert WifiAvailable in cd.flags <==> WifiAvailable in cd.flags - SdFlags;
  }

  /** Taking and returning the Wi-Fi token keeps it a mutex, and so do the
      link events, except an address arriving while the token is held. */
  lemma WifiTokenStep(s: State, e: Event)
    requires WifiTokenOk(s) && Admissible(s, e)
    ensures WifiTokenOk(Step(s, e))
  {
    match e
    case Acquire =>
    case Post(_) =>
    case SntpLink =>
    case SntpBegin =>
    case SntpEnd =>
    case Wifi(_) =>
    case Card(first, second, ok) => CardKeepsWifiToken(s, first, second, ok);
    case _ => WifiTokenUntouched(s, e);
  }

  /** Steps that leave the SD token and the mount bit alone. */
  lemma SdTokenUntouched(s: State, e: Event)
    requires e.Sample? || e.Router? || e.Receive? || e.Acquire? || e.Post? || e.ListFiles?
             || e.Wake? || e.SntpLink? || e.SntpBegin? || e.SntpEnd?
    ensures SdAvailable in Step(s, e).flags <==> SdAvailable in s.flags
    ensures SdMounted in Step(s, e).flags <==> SdMounted in s.flags
  {
  }

  lemma WifiEventKeepsSdToken(s: State, ev: WifiEvent)
    ensures SdAvailable in Step(s, Wifi(ev)).flags <==> SdAvailable in s.flags
    ensures SdMounted in Step(s, Wifi(ev)).flags <==> SdMounted in s.flags
  {
    var r := OnWifiEvent(s.flags, ev);
    assert SdAvailable !in WifiFlags && SdMounted !in WifiFlags;
    assert SdAvailable in r <==> SdAvailable in r - WifiFlags;
    assert SdMounted in r <==> SdMounted in r - WifiFlags;
  }

  /** The SD token is only ever offered with a mounted card: the writer
      gives it back only after taking it, and removal clears both bits. */
  lemma SdTokenStep(s: State, e: Event)
    requires SdTokenOk(s)
    ensures SdTokenOk(Step(s, e))
  {
    match e
    case WriteSd(_) =>
    case Replay(_) =>
    case Card(_, _, _) =>
    case Wifi(ev) => WifiEventKeepsSdToken(s, ev);
    case _ => SdTokenUntouched(s, e);
  }

  /** Only the sender's post moves the retry counter, and it stays within
      MAX_RETRY. */
  lemma RetriesStep(s: State, e: Event)
    requires s.retries <= MAX_RETRY
    ensures Step(s, e).retries <= MAX_RETRY
  {
    if !e.Post? {
      assert Step(s, e).retries == s.retries;
    }
  }

  /** The invariant holds at start-up and after every admissible step. */
  lemma StepPreservesInv(s: State, e: Event)
    requires Inv(s) && Admissible(s, e)
    ensures Inv(Step(s, e))
  {
    StepConservesHandles(s, e);
    WifiTokenStep(s, e);
    SdTokenStep(s, e);
    RetriesStep(s, e);
  }

  /** Over any run, admissible or not, the three handles stay where some
      queue or task holds them, each exactly once. */
  lemma {:induction false} RunConservesHandles(s: State, es: seq<Event>)
    requires Handles(s) == AllHandles
    ensures Handles(Run(s, es)) == AllHandles
    decreases |es|
  {
    if |es| > 0 {
      StepConservesHandles(s, es[0]);
      RunConservesHandles(Step(s, es[0]), es[1..]);
    }
  }

  lemma {:induction false} RunPreservesInv(s: State, es: seq<Event>)
    requires Inv(s) && AdmissibleRun(s, es)
    ensures Inv(Run(s, es))
    decreases |es|
  {
    if |es| > 0 {
      AdmissibleRunSplit(s, es);
      StepPreservesInv(s, es[0]);
      RunPreservesInv(Step(s, es[0]), es[1..]);
    }
  }

  /* ---------------------------------------------------------------------- */
  /* Payloads                                                                */
  /* ---------------------------------------------------------------------- */

  /** The payloads the buffers of queue `q` carry. */
  function Names(p: map<BufId, Name>, q: seq<BufId>): set<Name>
  {
    if |q| == 0 then {} else {Pay(p, q[0])} + Names(p, q[1..])
  }

  lemma {:induction false} NamesAppend(p: map<BufId, Name>, a: seq<BufId>, b: seq<BufId>)
    ensures Names(p, a + b) == Names(p, a) + Names(p, b)
  {
    if |a| == 0 {
      assert a + b == b;
    } else {
      assert (a + b)[1..] == a[1..] + b;
      NamesAppend(p, a[1..], b);
    }
  }

  /** Re-stamping a buffer that is not in `q` leaves `q`'s payloads alone. */
  lemma {:induction false} NamesFrame(p: map<BufId, Name>, q: seq<BufId>, b: BufId, v: Name)
    requires b !in q
    ensures Names(p[b := v], q) == Names(p, q)
  {
    if |q| > 0 {
      assert q[0] != b;
      NamesFrame(p, q[1..], b, v);
    }
  }

  function HeldName(s: State): set<Name>
  {
    if s.sender.Idle? then {} else {PayloadOf(s, s.sender.buf)}
  }

  /** Payloads still waiting for delivery: those of the full, Wi-Fi and SD
      queues and of the sender's buffer. */
  function Carried(s: State): set<Name>
  {
    Names(s.payload, s.q.full) + Names(s.payload, s.q.toWifi) + Names(s.payload, s.q.toSd) + HeldName(s)
  }

  /** The payload a writer that returned still holds. */
  function Stranded(s: State): set<Name>
  {
    if s.writer.Exited? then {PayloadOf(s, s.writer.held)} else {}
  }

  /** Payloads accounted for: carried by a buffer, held in a file, accepted
      by the server, or stranded with a returned writer. */
  function Accounted(s: State): set<Name>
  {
    Carried(s) + s.card + s.posted + Stranded(s)
  }

  /** Handles whose payload still waits for delivery. */
  function InTransit(s: State): multiset<BufId>
  {
    multiset(s.q.full) + multiset(s.q.toWifi) + multiset(s.q.toSd) + SenderHeld(s.sender)
  }

  /** With the handles distinct, a handle in the empty queue is in no
      other place. */
  lemma EmptyIsApart(s: State, b: BufId)
    requires Handles(s) == AllHandles && b in s.q.empty
    ensures b !in InTransit(s)
    ensures !(s.writer.Exited? && s.writer.held == b)
  {
    assert Handles(s)[b] == multiset(s.q.empty)[b] + InTransit(s)[b] + TaskHeld(s.writer)[b] + TaskHeld(s.replay)[b];
    assert AllHandles[b] <= 1;
  }

  /** The first empty buffer is in no carrying place and not held by the
      sender or a returned writer. */
  predicate FrontApart(s: State)
  {
    |s.q.empty| > 0 ==>
      var b := s.q.empty[0];
      && b !in s.q.full && b !in s.q.toWifi && b !in s.q.toSd
      && (s.sender.Idle? || s.sender.buf != b)
      && (s.writer.Exited? ==> s.writer.held != b)
  }

  lemma OutOfSum(a: multiset<BufId>, b: multiset<BufId>, c: multiset<BufId>, d: multiset<BufId>, x: BufId)
    requires x !in a + b + c + d
    ensures x !in a && x !in b && x !in c && x !in d
  {
  }

  lemma HandlesFrontApart(s: State)
    requires Handles(s) == AllHandles
    ensures FrontApart(s)
  {
    if |s.q.empty| > 0 {
      var b := s.q.empty[0];
      EmptyIsApart(s, b);
      OutOfSum(multiset(s.q.full), multiset(s.q.toWifi), multiset(s.q.toSd), SenderHeld(s.sender), b);
    }
  }

  /** A new duty cycle's record joins the carried payloads, and nothing
      carried before is overwritten: the buffer it fills was empty. */
  lemma SampleKeepsPayloads(s: State, stamp: Name)
    requires FrontApart(s)
    ensures Accounted(s) <= Accounted(SampleStep(s, stamp))
    ensures |s.q.empty| > 0 ==> stamp in Carried(SampleStep(s, stamp))
  {
    var r := SampleStep(s, stamp);
    if |s.q.empty| > 0 {
      var b := s.q.empty[0];
      NamesFrame(s.payload, s.q.full, b, stamp);
      NamesFrame(s.payload, s.q.toWifi, b, stamp);
      NamesFrame(s.payload, s.q.toSd, b, stamp);
      NamesAppend(r.payload, s.q.full, [b]);
      assert Names(r.payload, [b]) == {stamp};
      assert Carried(r) == Carried(s) + {stamp};
    }
  }

  /** Payloads of the three carrying queues. */
  function QueueNames(p: map<BufId, Name>, q: Queues): set<Name>
  {
    Names(p, q.full) + Names(p, q.toWifi) + Names(p, q.toSd)
  }

  /** The payloads of a queue are its head's and its tail's. */
  lemma NamesCons(p: map<BufId, Name>, q: seq<BufId>)
    requires |q| > 0
    ensures Names(p, q) == {Pay(p, q[0])} + Names(p, q[1..])
  {
  }

  lemma NamesOne(p: map<BufId, Name>, b: BufId)
    ensures Names(p, [b]) == {Pay(p, b)}
  {
    assert [b][1..] == [];
  }

  lemma DispatchKeepsNames(p: map<BufId, Name>, q: Queues, d: Destination)
    requires |q.full| > 0 && d != ToEmpty
    ensures QueueNames(p, Dispatch(q, d)) == QueueNames(p, q)
  {
    var b := q.full[0];
    var r := Dispatch(q, d);
    NamesCons(p, q.full);
    NamesOne(p, b);
    match d
    case ToWifi =>
      assert r.full == q.full[1..] && r.toWifi == q.toWifi + [b] && r.toSd == q.toSd;
      NamesAppend(p, q.toWifi, [b]);
    case ToSd =>
      assert r.full == q.full[1..] && r.toWifi == q.toWifi && r.toSd == q.toSd + [b];
      NamesAppend(p, q.toSd, [b]);
    case ToFull =>
      assert r.full == q.full[1..] + [b] && r.toWifi == q.toWifi && r.toSd == q.toSd;
      NamesAppend(p, q.full[1..], [b]);
  }

  lemma DrainKeepsNames(p: map<BufId, Name>, q: Queues, linkDown: bool, cardOut: bool)
    ensures QueueNames(p, Drained(q, linkDown, cardOut)) == QueueNames(p, q)
  {
    var a := if linkDown then q.toWifi else [];
    var c := if cardOut then q.toSd else [];
    NamesAppend(p, q.full + a, c);
    NamesAppend(p, q.full, a);
    assert Names(p, []) == {};
  }

  /** The corrected router moves buffers only between carrying queues. */
  lemma RoutedKeepsNames(p: map<BufId, Name>, q: Queues, w: bv8)
    ensures QueueNames(p, Routed(q, w)) == QueueNames(p, q)
  {
    if |q.full| == 0 {
      DrainKeepsNames(p, q, w & Bit(WifiConnected) == 0, w & Bit(SdMounted) == 0);
    } else {
      DispatchKeepsNames(p, q, Route(w));
    }
  }

  lemma RouterKeepsPayloads(s: State)
    ensures Accounted(RouterStep(s)) == Accounted(s)
  {
    var r := RouterStep(s);
    var q' := Routed(s.q, Word(s.flags));
    assert r == s.(q := q');
    RoutedKeepsNames(s.payload, s.q, Word(s.flags));
    assert Carried(r) == QueueNames(s.payload, q') + HeldName(s);
  }

  lemma ReceiveKeepsPayloads(s: State)
    ensures Accounted(ReceiveStep(s)) == Accounted(s)
  {
    if s.sender.Idle? && |s.q.toWifi| > 0 {
      assert Names(s.payload, s.q.toWifi) == {PayloadOf(s, s.q.toWifi[0])} + Names(s.payload, s.q.toWifi[1..]);
      assert Carried(ReceiveStep(s)) == Carried(s);
    }
  }

  /** After a post the buffer's payload is either delivered or still carried. */
  lemma PlaceKeepsPayloads(p: map<BufId, Name>, q: Queues, b: BufId, a: SendAction)
    ensures var r := Place(q, b, a);
            var before := Names(p, q.full) + Names(p, q.toWifi) + Names(p, q.toSd);
            var after := Names(p, r.full) + Names(p, r.toWifi) + Names(p, r.toSd);
            if a == Delivered then after == before else after == before + {Pay(p, b)}
  {
    NamesOne(p, b);
    if a == ToSdQueue {
      NamesAppend(p, q.toSd, [b]);
    } else if a != Delivered {
      NamesAppend(p, [b], q.toWifi);
    }
  }

  lemma PostKeepsPayloads(s: State, ok: bool)
    ensures Accounted(s) <= Accounted(PostStep(s, ok))
  {
    var r := PostStep(s, ok);
    if s.sender.Sending? {
      var b := s.sender.buf;
      var a := SendStep(ok, s.retries, Word(s.flags)).action;
      assert r.payload == s.payload && r.card == s.card && r.writer == s.writer && r.sender == Idle;
      assert r.q == Place(s.q, b, a);
      assert r.posted == if a == Delivered then s.posted + {PayloadOf(s, b)} else s.posted;
      PlaceKeepsPayloads(s.payload, s.q, b, a);
      assert Stranded(r) == Stranded(s) && HeldName(r) == {};
    }
  }

  /** A written payload is on the card; a failed write strands it with the
      writer. */
  lemma WriteKeepsPayloads(s: State, ok: bool)
    ensures Accounted(s) <= Accounted(WriteStep(s, ok))
  {
    var r := WriteStep(s, ok);
    if r != s {
      var b := s.q.toSd[0];
      assert Names(s.payload, s.q.toSd) == {PayloadOf(s, b)} + Names(s.payload, s.q.toSd[1..]);
      assert PayloadOf(s, b) in Accounted(r);
    }
  }

  /** A replayed file becomes a carried payload before it leaves the card;
      a failed replay touches no payload. */
  lemma ReplayKeepsPayloads(s: State, ok: bool)
    requires FrontApart(s)
    ensures Accounted(s) <= Accounted(ReplayStep(s, ok))
  {
    var r := ReplayStep(s, ok);
    if r != s && ok {
      var b := s.q.empty[0];
      var n := s.names[0];
      NamesFrame(s.payload, s.q.full, b, n);
      NamesFrame(s.payload, s.q.toWifi, b, n);
      NamesFrame(s.payload, s.q.toSd, b, n);
      NamesAppend(r.payload, s.q.full, [b]);
      assert Names(r.payload, [b]) == {n};
      assert Carried(r) == Carried(s) + {n};
      assert Stranded(r) == Stranded(s);
    }
  }

  /** Steps that move no buffer and touch no payload. */
  lemma QuietStepKeepsPayloads(s: State, e: Event)
    requires e.Acquire? || e.ListFiles? || e.Wake? || e.SntpLink? || e.SntpBegin? || e.SntpEnd? || e.Wifi? || e.Card?
    ensures Accounted(Step(s, e)) == Accounted(s)
  {
    var r := Step(s, e);
    assert r.q == s.q && r.payload == s.payload && r.card == s.card && r.posted == s.posted;
    assert r.writer == s.writer && HeldName(r) == HeldName(s);
  }

  /** With the corrected router, no step loses a payload. */
  lemma StepKeepsPayloads(s: State, e: Event)
    requires Handles(s) == AllHandles
    ensures Accounted(s) <= Accounted(Step(s, e))
  {
    HandlesFrontApart(s);
    if e.Sample? || e.Router? || e.Receive? || e.Post? || e.WriteSd? || e.Replay? {
      MovingStepKeepsPayloads(s, e);
    } else {
      QuietStepKeepsPayloads(s, e);
    }
  }

  /** Steps that move a buffer, given that the first empty buffer carries
      nothing anyone still needs. */
  lemma MovingStepKeepsPayloads(s: State, e: Event)
    requires FrontApart(s)
    requires e.Sample? || e.Router? || e.Receive? || e.Post? || e.WriteSd? || e.Replay?
    ensures Accounted(s) <= Accounted(Step(s, e))
  {
    if e.Sample? {
      SampleKeepsPayloads(s, e.stamp);
    } else if e.Router? {
      RouterKeepsPayloads(s);
    } else if e.Receive? {
      ReceiveKeepsPayloads(s);
    } else if e.Post? {
      PostKeepsPayloads(s, e.ok);
    } else if e.WriteSd? {
      WriteKeepsPayloads(s, e.fopenOk);
    } else {
      ReplayKeepsPayloads(s, e.loadOk);
    }
  }

  /** Over any run, every payload once accounted for stays so: each sampled
      record ends on the server, on the card, in a buffer, or stranded with
      a writer that returned. Only the handles need to start distinct; the
      Wi-Fi token plays no part. */
  lemma {:induction false} RunKeepsPayloads(s: State, es: seq<Event>)
    requires Handles(s) == AllHandles
    ensures Accounted(s) <= Accounted(Run(s, es))
    decreases |es|
  {
    if |es| > 0 {
      StepKeepsPayloads(s, es[0]);
      StepConservesHandles(s, es[0]);
      RunKeepsPayloads(Step(s, es[0]), es[1..]);
    }
  }

  /** The router as written recycles a full buffer as empty when neither
      link is up; a payload found nowhere else is then lost. */
  lemma RouterAsWrittenDropsPayload(s: State, status: bv8)
    requires |s.q.full| > 0 && WifiConnected !in s.flags && SdMounted !in s.flags
    requires PayloadOf(s, s.q.full[0]) !in Names(s.payload, s.q.full[1..]) + Names(s.payload, s.q.toWifi)
                                           + Names(s.payload, s.q.toSd) + HeldName(s)
                                           + s.card + s.posted + Stranded(s)
    ensures PayloadOf(s, s.q.full[0]) in Accounted(s)
    ensures PayloadOf(s, s.q.full[0]) !in Accounted(RouterStepAsWritten(s, status))
  {
    var w := Word(s.flags);
    WordRoundTrip(s.flags, 0);
    assert RouteAsWritten(w, status) == ToEmpty;
    assert RoutedAsWritten(s.q, w, status).full == s.q.full[1..];
  }

  /** Every task that takes a busy token on its normal path hands it back:
      the sender after its post whatever the outcome, SNTP once the clock is
      read, and the SD tasks after a successful transfer or listing. */
  lemma TokensReturned(s: State, ok: bool, dir: seq<Name>, dirOpened: bool)
    ensures s.sender.Waiting? && WifiAvailable in s.flags ==>
              AcquireStep(s).sender.Sending? && WifiAvailable !in AcquireStep(s).flags
              && PostStep(AcquireStep(s), ok).sender.Idle? && WifiAvailable in PostStep(AcquireStep(s), ok).flags
    ensures s.sntp.NotStarted? && WifiConnected in s.flags && WifiAvailable in s.flags ==>
              (var b := SntpBeginStep(SntpLinkStep(s));
               WifiAvailable !in b.flags && SntpEndStep(b).sntp.Done? && WifiAvailable in SntpEndStep(b).flags)
    ensures SdAvailable in s.flags ==>
              SdAvailable in WriteStep(s, true).flags && SdAvailable in ReplayStep(s, true).flags
              && SdAvailable in ListStep(s, dir, dirOpened).flags
  {
    if s.sender.Waiting? && WifiAvailable in s.flags {
      var a := AcquireStep(s);
      assert a.sender.Sending?;
      var p := PostStep(a, ok);
    }
    if s.sntp.NotStarted? && WifiConnected in s.flags && WifiAvailable in s.flags {
      var l := SntpLinkStep(s);
      assert l.sntp.Linked? && l.flags == s.flags;
      var b := SntpBeginStep(l);
      assert b.sntp.Holding?;
    }
  }

  /* ---------------------------------------------------------------------- */
  /* Hazards of the code as written                                          */
  /* ---------------------------------------------------------------------- */

  /** An address arriving while the sender posts raises WIFI_AVAILABLE under
      it, and SNTP, before or past its link wait, can then take the token
      too: two holders. */
  lemma GotIpBreaksExclusion(s: State)
    requires WifiTokenOk(s) && s.sender.Sending? && (s.sntp.NotStarted? || s.sntp.Linked?)
    ensures !WifiTokenOk(Step(s, Wifi(GotIp)))
    ensures WifiHolders(SntpBeginStep(SntpLinkStep(Step(s, Wifi(GotIp))))) == 2
  {
    var fs := OnWifiEvent(s.flags, GotIp);
    var g := Step(s, Wifi(GotIp));
    assert g.flags == fs;
    assert g.sender == s.sender && g.sntp == s.sntp;
    assert WifiAvailable in fs && WifiConnected in fs;
    assert WifiHolders(g) == 1;
    var l := SntpLinkStep(g);
    assert l.sntp.Linked? && l.flags == fs && l.sender == s.sender;
    var b := SntpBeginStep(l);
    assert b.sntp.Holding? && b.sender == s.sender;
  }

  /** SNTP looks at the link only before it waits for the token. Past that
      wait, the link can drop; the sender's post then fails and hands the
      token back, and SNTP takes it with no link to fetch the time over. */
  lemma SntpTakesTokenOffline(s: State)
    requires s.sender.Sending? && s.sntp.Linked?
    ensures var d := Step(s, Wifi(StaDisconnected));
            var p := PostStep(d, false);
            var b := SntpBeginStep(p);
            && WifiConnected !in d.flags && p.sender.Idle? && WifiAvailable in p.flags
            && b.sntp.Holding? && WifiConnected !in b.flags && WifiAvailable !in b.flags
  {
    var d := Step(s, Wifi(StaDisconnected));
    assert d.flags == OnWifiEvent(s.flags, StaDisconnected) && d.sender == s.sender && d.sntp == s.sntp;
    var p := PostStep(d, false);
    assert p.sntp == s.sntp && WifiConnected !in p.flags;
  }

  /** Between the lister's take of SD_AVAILABLE and its unconditional set
      after the listing, a card removal can run; the set then offers the SD
      token with no card mounted. The model's ListStep is atomic and so
      never shows this interleaving. */
  lemma ListerRaceOffersUnmountedToken(fs: set<Flag>)
    requires SdMounted in fs && SdAvailable in fs
    ensures var taken := fs - {SdAvailable};
            var removed := OnCardDetect(CardDetect(0, taken), 1, 1, false).flags;
            var released := removed + {SdAvailable};
            SdAvailable in released && SdMounted !in released
  {
  }

  /** A task that returned stays returned, holding its buffer. */
  lemma ExitedStays(s: State, e: Event)
    ensures s.writer.Exited? ==> Step(s, e).writer == s.writer
    ensures s.replay.Exited? ==> Step(s, e).replay == s.replay
  {
  }

  lemma {:induction false} RunKeepsExited(s: State, es: seq<Event>)
    ensures s.writer.Exited? ==> Run(s, es).writer == s.writer
    ensures s.replay.Exited? ==> Run(s, es).replay == s.replay
    decreases |es|
  {
    if |es| > 0 {
      ExitedStays(s, es[0]);
      RunKeepsExited(Step(s, es[0]), es[1..]);
    }
  }

  /** A buffer held by a returned task is in no queue and not with the
      sender; once both tasks have returned a single buffer circulates. */
  lemma ExitedHandlesLost(s: State)
    requires Inv(s)
    ensures s.writer.Exited? ==> s.writer.held !in Queued(s.q) + SenderHeld(s.sender)
    ensures s.replay.Exited? ==> s.replay.held !in Queued(s.q) + SenderHeld(s.sender)
    ensures s.writer.Exited? && s.replay.Exited? ==> |Queued(s.q) + SenderHeld(s.sender)| == 1
  {
    var rest := Queued(s.q) + SenderHeld(s.sender);
    var tasks := TaskHeld(s.writer) + TaskHeld(s.replay);
    assert Handles(s) == rest + tasks;
    TasksApart(rest, s.writer, s.replay);
  }

  lemma TasksApart(rest: multiset<BufId>, w: Task, r: Task)
    requires rest + TaskHeld(w) + TaskHeld(r) == AllHandles
    ensures w.Exited? ==> w.held !in rest
    ensures r.Exited? ==> r.held !in rest
    ensures w.Exited? && r.Exited? ==> |rest| == 1
  {
    var tasks := TaskHeld(w) + TaskHeld(r);
    assert rest + tasks == AllHandles;
    if w.Exited? {
      NotLeft(rest, tasks, w.held);
    }
    if r.Exited? {
      NotLeft(rest, tasks, r.held);
    }
    if w.Exited? && r.Exited? {
      assert |tasks| == 2 && |AllHandles| == 3;
    }
  }

  /** A handle a task holds is nowhere else, since each handle exists once. */
  lemma NotLeft(rest: multiset<BufId>, tasks: multiset<BufId>, h: BufId)
    requires rest + tasks == AllHandles && h in tasks
    ensures h !in rest
  {
    assert AllHandles[h] <= 1;
    assert (rest + tasks)[h] == rest[h] + tasks[h];
  }

  /** A failed `fopen` in the SD writer returns with the SD token taken. */
  lemma WriterFailureTakesSdToken(s: State)
    requires s.writer.Running? && |s.q.toSd| > 0 && SdAvailable in s.flags
    ensures WriteStep(s, false).writer == Exited(s.q.toSd[0])
    ensures SdAvailable !in WriteStep(s, false).flags
  {
  }

  /** Without the SD token no task touches the card, and only a card-detect
      interrupt can raise the token again. */
  lemma SdTokenLost(s: State, e: Event)
    requires SdAvailable !in s.flags
    ensures WriteStep(s, true) == s && WriteStep(s, false) == s
    ensures ReplayStep(s, true) == s && ReplayStep(s, false) == s
    ensures forall dir, ok :: ListStep(s, dir, ok) == s
    ensures !e.Card? ==> SdAvailable !in Step(s, e).flags
  {
    if e.Wifi? {
      assert Step(s, e).flags - WifiFlags == s.flags - WifiFlags;
    }
  }

  predicate NoCardEvent(es: seq<Event>)
  {
    forall i :: 0 <= i < |es| ==> !es[i].Card?
  }

  /** Until the card is re-inserted the token stays down and the card
      contents stay as they are. */
  lemma {:induction false} SdTokenLostUntilCardEvent(s: State, es: seq<Event>)
    requires SdAvailable !in s.flags && NoCardEvent(es)
    ensures SdAvailable !in Run(s, es).flags
    ensures Run(s, es).card == s.card
    decreases |es|
  {
    if |es| > 0 {
      SdTokenLost(s, es[0]);
      assert Step(s, es[0]).card == s.card;
      assert NoCardEvent(es[1..]) by {
        forall i | 0 <= i < |es[1..]| ensures !es[1..][i].Card? {
          assert es[1..][i] == es[i + 1];
        }
      }
      SdTokenLostUntilCardEvent(Step(s, es[0]), es[1..]);
    }
  }

  /** The listing offset is the number of names queued, which only matches
      the directory while the directory order is stable: when the entry at
      that offset is already queued, the lister queues it a second time. */
  lemma ListingCanRepeat(s: State, dir: seq<Name>)
    requires s.listerReady && SdAvailable in s.flags
    requires Storage.EntriesHoldNames(dir) && Listing(s.card, dir)
    requires |s.names| < |dir| && |dir[|s.names|]| == Storage.NAME_SIZE && dir[|s.names|] in s.names
    ensures |ListStep(s, dir, true).names| > |s.names|
    ensures ListStep(s, dir, true).names[|s.names|] in s.names
  {
    var rows := Storage.Window(dir, Storage.MAX_OPEN_FILES, |s.names|);
    assert rows[0] == dir[|s.names|][..Storage.NAME_SIZE] == dir[|s.names|];
  }

  /** A queued name whose file is gone cannot be opened: the replay task
      returns holding an empty buffer and the SD token. */
  lemma StaleNameStrands(s: State)
    requires s.replay.Running? && WifiConnected in s.flags && |s.names| > 0
    requires SdAvailable in s.flags && |s.q.empty| > 0 && s.names[0] !in s.card
    ensures ReplayStep(s, true) == s
    ensures ReplayStep(s, false).replay == Exited(s.q.empty[0])
    ensures SdAvailable !in ReplayStep(s, false).flags
  {
  }

  /** A name queued twice goes stale once its first copy is replayed. */
  lemma DuplicateNameGoesStale(s: State)
    requires s.replay.Running? && WifiConnected in s.flags && SdAvailable in s.flags
    requires |s.names| >= 2 && s.names[0] == s.names[1] && s.names[0] in s.card
    requires |s.q.empty| >= 2
    ensures ReplayStep(s, true).names[0] !in ReplayStep(s, true).card
    ensures ReplayStep(ReplayStep(s, true), false).replay == Exited(s.q.empty[1])
  {
    var r := ReplayStep(s, true);
    assert r.names[0] == s.names[1];
    StaleNameStrands(r);
  }
}
