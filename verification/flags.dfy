/** The shared event group `flags_hardware_available` and the two handlers
    that drive it from outside the buffer pipeline: the Wi-Fi/IP event
    handler and the SD card-detect task (with the card mount it calls). */
module Flags {

  datatype Flag =
    | SdMounted          // card mounted
    | SdAvailable        // SD busy token: set = nobody is using the card
    | FilesAvailable     // the card may hold files not yet replayed
    | WifiConnected      // station has an IP address
    | WifiAvailable      // Wi-Fi busy token: set = nobody is using the link
    | WifiFail           // last connection attempt failed
    | ItemsInWifiQueue
    | ItemsInSdQueue

  const AllFlags: set<Flag> := {SdMounted, SdAvailable, FilesAvailable, WifiConnected,
                                WifiAvailable, WifiFail, ItemsInWifiQueue, ItemsInSdQueue}

  lemma AllFlagsComplete(f: Flag)
    ensures f in AllFlags
  {
  }

  /** The bit each flag occupies in the event group word. */
  function Bit(f: Flag): (b: bv8)
    ensures b != 0 && b & (b - 1) == 0
  {
    match f
    case SdMounted => 1 << 0
    case SdAvailable => 1 << 1
    case FilesAvailable => 1 << 2
    case WifiConnected => 1 << 3
    case WifiAvailable => 1 << 4
    case WifiFail => 1 << 5
    case ItemsInWifiQueue => 1 << 6
    case ItemsInSdQueue => 1 << 7
  }

  lemma BitInjective(f: Flag, g: Flag)
    requires Bit(f) == Bit(g)
    ensures f == g
  {
  }

  /** The event group word holding exactly the flags in `fs`. */
  function Word(fs: set<Flag>): (w: bv8)
    ensures forall f :: Bit(f) & w != 0 <==> f in fs
  {
    var w := Part(fs, SdMounted) | Part(fs, SdAvailable) | Part(fs, FilesAvailable)
      | Part(fs, WifiConnected) | Part(fs, WifiAvailable) | Part(fs, WifiFail)
      | Part(fs, ItemsInWifiQueue) | Part(fs, ItemsInSdQueue);
    forall f ensures Bit(f) & w != 0 <==> f in fs {
      WordBit(fs, f, w);
    }
    w
  }

  /** The contribution of one flag to the word. */
  function Part(fs: set<Flag>, f: Flag): bv8
  {
    if f in fs then Bit(f) else 0
  }

  lemma WordBit(fs: set<Flag>, f: Flag, w: bv8)
    requires w == Part(fs, SdMounted) | Part(fs, SdAvailable) | Part(fs, FilesAvailable)
      | Part(fs, WifiConnected) | Part(fs, WifiAvailable) | Part(fs, WifiFail)
      | Part(fs, ItemsInWifiQueue) | Part(fs, ItemsInSdQueue)
    ensures Bit(f) & w != 0 <==> f in fs
  {
    PartsMasked(fs, w);
    match f
    case SdMounted =>
    case SdAvailable =>
    case FilesAvailable =>
    case WifiConnected =>
    case WifiAvailable =>
    case WifiFail =>
    case ItemsInWifiQueue =>
    case ItemsInSdQueue =>
  }

  /** Masking the word with a flag's bit gives back that flag's part. */
  lemma PartsMasked(fs: set<Flag>, w: bv8)
    requires w == Part(fs, SdMounted) | Part(fs, SdAvailable) | Part(fs, FilesAvailable)
      | Part(fs, WifiConnected) | Part(fs, WifiAvailable) | Part(fs, WifiFail)
      | Part(fs, ItemsInWifiQueue) | Part(fs, ItemsInSdQueue)
    ensures w & 0x01 == Part(fs, SdMounted) && w & 0x02 == Part(fs, SdAvailable)
    ensures w & 0x04 == Part(fs, FilesAvailable) && w & 0x08 == Part(fs, WifiConnected)
    ensures w & 0x10 == Part(fs, WifiAvailable) && w & 0x20 == Part(fs, WifiFail)
    ensures w & 0x40 == Part(fs, ItemsInWifiQueue) && w & 0x80 == Part(fs, ItemsInSdQueue)
  {
    var a, b, c, d := Part(fs, SdMounted), Part(fs, SdAvailable), Part(fs, FilesAvailable), Part(fs, WifiConnected);
    var e, g, h, k := Part(fs, WifiAvailable), Part(fs, WifiFail), Part(fs, ItemsInWifiQueue), Part(fs, ItemsInSdQueue);
    assert a & 0xFE == 0 && b & 0xFD == 0 && c & 0xFB == 0 && d & 0xF7 == 0;
    assert e & 0xEF == 0 && g & 0xDF == 0 && h & 0xBF == 0 && k & 0x7F == 0;
    DisjointBits(a, b, c, d, e, g, h, k);
  }

  /** Eight one-bit parts in distinct positions can each be masked back out of their union. */
  lemma DisjointBits(a: bv8, b: bv8, c: bv8, d: bv8, e: bv8, g: bv8, h: bv8, k: bv8)
    requires a & 0xFE == 0 && b & 0xFD == 0 && c & 0xFB == 0 && d & 0xF7 == 0
    requires e & 0xEF == 0 && g & 0xDF == 0 && h & 0xBF == 0 && k & 0x7F == 0
    ensures var w := a | b | c | d | e | g | h | k;
            w & 0x01 == a && w & 0x02 == b && w & 0x04 == c && w & 0x08 == d &&
            w & 0x10 == e && w & 0x20 == g && w & 0x40 == h && w & 0x80 == k
  {
  }

  /** The flags a word has set. */
  function FlagsOf(w: bv8): (fs: set<Flag>)
    ensures forall f :: f in fs <==> Bit(f) & w != 0
  {
    set f <- AllFlags | Bit(f) & w != 0
  }

  /** Every 8-bit word is a flag set and back. */
  lemma WordRoundTrip(fs: set<Flag>, w: bv8)
    ensures FlagsOf(Word(fs)) == fs
    ensures Word(FlagsOf(w)) == w
  {
    var v := Word(FlagsOf(w));
    assert v & 0x01 == w & 0x01 by { assert Bit(SdMounted) == 0x01; }
    assert v & 0x02 == w & 0x02 by { assert Bit(SdAvailable) == 0x02; }
    assert v & 0x04 == w & 0x04 by { assert Bit(FilesAvailable) == 0x04; }
    assert v & 0x08 == w & 0x08 by { assert Bit(WifiConnected) == 0x08; }
    assert v & 0x10 == w & 0x10 by { assert Bit(WifiAvailable) == 0x10; }
    assert v & 0x20 == w & 0x20 by { assert Bit(WifiFail) == 0x20; }
    assert v & 0x40 == w & 0x40 by { assert Bit(ItemsInWifiQueue) == 0x40; }
    assert v & 0x80 == w & 0x80 by { assert Bit(ItemsInSdQueue) == 0x80; }
  }

  /** ALL_FLAGS_HARDWARE is the full word, and no other flag set is. */
  lemma AllFlagsWord(fs: set<Flag>)
    ensures Word(fs) == 0xFF <==> fs == AllFlags
  {
    WordRoundTrip(fs, 0);
    WordRoundTrip(AllFlags, 0xFF);
    assert FlagsOf(0xFF) == AllFlags;
  }

  const SdFlags: set<Flag> := {SdMounted, SdAvailable}
  const WifiFlags: set<Flag> := {WifiConnected, WifiAvailable, WifiFail}

  /* ---------------------------------------------------------------------- */
  /* wifi_event_handler                                                      */
  /* ---------------------------------------------------------------------- */

  datatype WifiEvent = StaStart | StaDisconnected | GotIp

  /** Start only triggers a connection attempt; a disconnect takes the
      link down and flags the failure; an address brings it up. */
  function OnWifiEvent(fs: set<Flag>, e: WifiEvent): (r: set<Flag>)
    ensures r - WifiFlags == fs - WifiFlags
    ensures e.StaStart? ==> r == fs
    ensures e.StaDisconnected? ==> WifiConnected !in r && WifiAvailable !in r && WifiFail in r
    ensures e.GotIp? ==> WifiConnected in r && WifiAvailable in r && WifiFail !in r
  {
    match e
    case StaStart => fs
    case StaDisconnected => fs - {WifiAvailable, WifiConnected} + {WifiFail}
    case GotIp => fs + {WifiAvailable, WifiConnected} - {WifiFail}
  }

  /** The Wi-Fi bits after an event depend only on the event, not on the
      bits before it; so a second copy of an event changes nothing. */
  lemma WifiEventOverrides(fs: set<Flag>, e1: WifiEvent, e2: WifiEvent)
    requires !e2.StaStart?
    ensures OnWifiEvent(OnWifiEvent(fs, e1), e2) == OnWifiEvent(fs, e2)
    ensures OnWifiEvent(OnWifiEvent(fs, e2), e2) == OnWifiEvent(fs, e2)
  {
  }

  /* ---------------------------------------------------------------------- */
  /* sd_mount_card and sd_cd_monitor_task                                    */
  /* ---------------------------------------------------------------------- */

  /** A successful mount raises SD_MOUNTED and SD_AVAILABLE; a failed one
      returns early and changes no flag. */
  function Mount(fs: set<Flag>, ok: bool): (r: set<Flag>)
    ensures r - SdFlags == fs - SdFlags
    ensures ok ==> SdMounted in r && SdAvailable in r
    ensures !ok ==> r == fs
  {
    if ok then fs + SdFlags else fs
  }

  /** The card-detect pin: low = card inserted. */
  datatype CardDetect = CardDetect(last: bv1, flags: set<Flag>)

  /** Boot: `last_state` starts at 1; a low pin mounts the card. */
  function CardBoot(fs: set<Flag>, level: bv1, mountOk: bool): (s: CardDetect)
    ensures s.last == level
    ensures level == 0 ==> s.flags == Mount(fs, mountOk)
    ensures level == 1 ==> s.flags == fs
  {
    if level == 0 then CardDetect(0, Mount(fs, mountOk)) else CardDetect(1, fs)
  }

  /** One pin interrupt. The pin is read twice: `first` is compared with
      the last state, `second` becomes the new last state and chooses
      between mounting and unmounting. */
  function OnCardDetect(s: CardDetect, first: bv1, second: bv1, mountOk: bool): (r: CardDetect)
    ensures r.flags - SdFlags == s.flags - SdFlags
    ensures first == s.last ==> r == s
    ensures first != s.last ==> r.last == second
    ensures first != s.last && second == 0 ==> r.flags == Mount(s.flags, mountOk)
    ensures first != s.last && second == 1 ==> SdMounted !in r.flags
    ensures first != s.last && second == 1 && SdMounted in s.flags ==> SdAvailable !in r.flags
    ensures first != s.last && second == 1 && SdMounted !in s.flags ==> r.flags == s.flags
  {
    if first == s.last then s
    else if second == 0 then CardDetect(0, Mount(s.flags, mountOk))
    else if SdMounted in s.flags then CardDetect(1, s.flags - SdFlags)
    else CardDetect(1, s.flags)
  }

  /** With a steady pin (both reads agree), a repeated interrupt is a no-op. */
  lemma CardDetectSteady(s: CardDetect, level: bv1, ok1: bool, ok2: bool)
    ensures OnCardDetect(OnCardDetect(s, level, level, ok1), level, level, ok2)
            == OnCardDetect(s, level, level, ok1)
  {
  }

  /** Removal always leaves the card unmounted and the SD token cleared,
      unless the token was already up while the card was unmounted. */
  lemma RemovalDropsCard(s: CardDetect, mountOk: bool)
    requires s.last == 0
    requires SdAvailable in s.flags ==> SdMounted in s.flags
    ensures SdMounted !in OnCardDetect(s, 1, 1, mountOk).flags
    ensures SdAvailable !in OnCardDetect(s, 1, 1, mountOk).flags
  {
  }
}
