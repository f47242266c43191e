/** The SD card side of the pipeline: the path a package is stored under,
    the file written and read back, and the window `sd_list_files` takes
    over the data directory. The card's file system is a map from file
    name to contents. */
module Storage {
  import opened Layout
  import Timestamp

  datatype Option<T> = None | Some(value: T)

  /** MAX_FILENAME_SIZE: a file name is the 12-character timestamp. */
  const NAME_SIZE: nat := 12
  /** MAX_OPEN_FILES: the listing window and the rows of the name matrix. */
  const MAX_OPEN_FILES: nat := 5

  /** FOLDER = MOUNT_POINT "/data" = "/sd/data". */
  const FOLDER: seq<bv8> := ['/' as bv8, 's' as bv8, 'd' as bv8, '/' as bv8,
                             'd' as bv8, 'a' as bv8, 't' as bv8, 'a' as bv8]
  /** SIZE_CHAR_FOLDER = sizeof(FOLDER): the eight characters and their NUL. */
  const SIZE_CHAR_FOLDER: nat := |FOLDER| + 1
  /** The prefix written before a name: FOLDER "/". */
  const DIR_PREFIX: seq<bv8> := FOLDER + ['/' as bv8]

  /** A file name taken from a package: its timestamp bytes 6..17. */
  function NameOf(buf: seq<bv8>): (name: seq<bv8>)
    requires |buf| >= CONTROL_BYTES
    ensures |name| == NAME_SIZE
    ensures forall i :: 0 <= i < NAME_SIZE ==> name[i] == buf[STAMP_AT + i]
  {
    buf[STAMP_AT..CONTROL_BYTES]
  }

  /** A completed package is named after the timestamp it was given,
      whatever buffer it was built in. */
  lemma NameOfPackage(c: Config, buf: seq<bv8>, recs: seq<seq<bv8>>, stamp: seq<bv8>)
    requires c.Valid() && |buf| == MaxSize(c) + 1 && |stamp| == STAMP_SIZE
    requires |recs| == c.items
    requires forall k :: 0 <= k < |recs| ==> |recs[k]| == Sum(c.bytesPerItem)
    ensures NameOf(Package(c, buf, recs, stamp)) == stamp
  {
    forall i | 0 <= i < NAME_SIZE
      ensures Package(c, buf, recs, stamp)[STAMP_AT + i] == stamp[i]
    {
      PackageControl(c, buf, recs, stamp, STAMP_AT + i);
    }
  }

  /* ---------------------------------------------------------------------- */
  /* The path array                                                          */
  /* ---------------------------------------------------------------------- */

  /** The string a C function sees in `a`: the bytes before the first NUL,
      or None when the array holds no NUL and the string runs past its end. */
  function CString(a: seq<bv8>): (s: Option<seq<bv8>>)
    ensures s.Some? ==> |s.value| < |a| && s.value == a[..|s.value|] && a[|s.value|] == 0
                        && 0 !in s.value
    ensures s.None? <==> 0 !in a
  {
    if |a| == 0 then None
    else if a[0] == 0 then Some([])
    else match CString(a[1..])
      case None => None
      case Some(rest) => Some([a[0]] + rest)
  }

  /** `char filename_datetime[SIZE_CHAR_FOLDER + DATETIME_SIZE_FORMAT] = FOLDER "/"`
      with the 12 name bytes copied to positions SIZE_CHAR_FOLDER.. — the
      21-byte array as the SD writer and the replay loader build it. */
  function PathArrayAsWritten(name: seq<bv8>): (a: seq<bv8>)
    requires |name| == NAME_SIZE
    ensures |a| == SIZE_CHAR_FOLDER + NAME_SIZE
    ensures a[..SIZE_CHAR_FOLDER] == DIR_PREFIX && a[SIZE_CHAR_FOLDER..] == name
  {
    DIR_PREFIX + name
  }

  /** A name that comes from the RTC never contains a NUL, so the path
      array handed to fopen has no terminator at all. */
  lemma PathAsWrittenUnterminated(regs: seq<bv8>)
    requires |regs| == Timestamp.REG_COUNT
    ensures CString(PathArrayAsWritten(Timestamp.GetDatetime(regs))).None?
  {
    var name := Timestamp.GetDatetime(regs);
    var a := PathArrayAsWritten(name);
    forall i | 0 <= i < |a|
      ensures a[i] != 0
    {
      if i >= SIZE_CHAR_FOLDER {
        assert a[i] == name[i - SIZE_CHAR_FOLDER];
      }
    }
  }

  /** The array with room for the terminator: one byte longer, NUL last. */
  function PathArray(name: seq<bv8>): (a: seq<bv8>)
    requires |name| == NAME_SIZE
    ensures |a| == SIZE_CHAR_FOLDER + NAME_SIZE + 1
    ensures a[..SIZE_CHAR_FOLDER + NAME_SIZE] == PathArrayAsWritten(name)
  {
    DIR_PREFIX + name + [0]
  }

  /** With the terminator, fopen sees exactly "/sd/data/" followed by the name. */
  lemma PathNamesTheFile(name: seq<bv8>)
    requires |name| == NAME_SIZE && 0 !in name
    ensures CString(PathArray(name)) == Some(DIR_PREFIX + name)
  {
    var a := PathArray(name);
    var s := CString(a);
    assert 0 !in DIR_PREFIX;
    assert 0 !in DIR_PREFIX + name;
    assert a[|DIR_PREFIX + name|] == 0;
    assert s.Some?;
    assert |s.value| == |DIR_PREFIX + name|;
  }

  /* ---------------------------------------------------------------------- */
  /* Writing a package and reading it back                                   */
  /* ---------------------------------------------------------------------- */

  type Card = map<seq<bv8>, seq<bv8>>

  /** The SD writer: "wb" creates or truncates the file, then the first
      max_buffer_size bytes go in; the status byte is not stored. */
  function StoreFile(card: Card, name: seq<bv8>, buf: seq<bv8>, maxSize: nat): (r: Card)
    requires |buf| == maxSize + 1
    ensures name in r && |r[name]| == maxSize
    ensures forall i :: 0 <= i < maxSize ==> r[name][i] == buf[i]
    ensures forall n :: n in card && n != name ==> n in r && r[n] == card[n]
    ensures r.Keys == card.Keys + {name}
  {
    card[name := buf[..maxSize]]
  }

  /** The replay loader: max_buffer_size bytes read over the buffer, the
      file removed, the status byte set to "from the card". */
  function LoadFile(card: Card, name: seq<bv8>, buf: seq<bv8>, maxSize: nat): (r: (Card, seq<bv8>))
    requires |buf| == maxSize + 1 && name in card && |card[name]| == maxSize
    ensures r.0.Keys == card.Keys - {name}
    ensures forall n :: n in r.0 ==> r.0[n] == card[n]
    ensures |r.1| == maxSize + 1 && r.1[maxSize] == STATUS_SD_DATA
    ensures forall i :: 0 <= i < maxSize ==> r.1[i] == card[name][i]
  {
    (map n | n in card && n != name :: card[n], card[name] + [STATUS_SD_DATA])
  }

  /** Storing a buffer and replaying it into any other buffer restores
      every transmitted byte; only the status byte now says "from the card",
      and the file is gone again. */
  lemma StoreLoadRoundTrip(card: Card, name: seq<bv8>, buf: seq<bv8>, other: seq<bv8>, maxSize: nat)
    requires |buf| == maxSize + 1 && |other| == maxSize + 1 && name !in card
    ensures var stored := StoreFile(card, name, buf, maxSize);
            var (after, back) := LoadFile(stored, name, other, maxSize);
            && back[..maxSize] == buf[..maxSize]
            && back == buf[maxSize := STATUS_SD_DATA]
            && after == card
  {
    var stored := StoreFile(card, name, buf, maxSize);
    var (after, back) := LoadFile(stored, name, other, maxSize);
    assert back[..maxSize] == buf[..maxSize];
    assert back == buf[maxSize := STATUS_SD_DATA];
    assert after == card;
  }

  /** A package written to the card and replayed into any buffer of the
      pool leaves that buffer prepared again: the header and the ids travel
      in the file. */
  lemma ReplayKeepsPrepared(c: Config, card: Card, name: seq<bv8>, buf: seq<bv8>, other: seq<bv8>)
    requires c.Valid() && Prepared(c, buf) && |other| == MaxSize(c) + 1 && name !in card
    ensures var stored := StoreFile(card, name, buf, MaxSize(c));
            Prepared(c, LoadFile(stored, name, other, MaxSize(c)).1)
  {
    var stored := StoreFile(card, name, buf, MaxSize(c));
    var back := LoadFile(stored, name, other, MaxSize(c)).1;
    StoreLoadRoundTrip(card, name, buf, other, MaxSize(c));
    RegionWithinMax(c, 0);
    assert back[..STAMP_AT] == buf[..STAMP_AT];
    forall i | 0 <= i < |c.bytesPerItem|
      ensures back[IdIndex(c, i)] == c.ids[i]
    {
      assert back[IdIndex(c, i)] == buf[IdIndex(c, i)];
    }
  }

  /** Two packages stamped with the same second share a name; the second
      write replaces the first. */
  lemma SameStampOverwrites(card: Card, name: seq<bv8>, first: seq<bv8>, second: seq<bv8>, maxSize: nat)
    requires |first| == maxSize + 1 && |second| == maxSize + 1
    ensures StoreFile(StoreFile(card, name, first, maxSize), name, second, maxSize)
            == StoreFile(card, name, second, maxSize)
  {
  }

  /* ---------------------------------------------------------------------- */
  /* sd_list_files                                                           */
  /* ---------------------------------------------------------------------- */

  /** A `readdir` entry's `d_name` array holds at least the 12 bytes copied. */
  predicate EntriesHoldNames(dir: seq<seq<bv8>>)
  {
    forall i :: 0 <= i < |dir| ==> |dir[i]| >= NAME_SIZE
  }

  function Min(a: int, b: int): int
  {
    if a < b then a else b
  }

  /** The window the listing is meant to return: entries offset .. offset+max-1
      of the directory, 12 bytes of each. */
  function Window(dir: seq<seq<bv8>>, maxFiles: nat, offset: nat): (rows: seq<seq<bv8>>)
    requires EntriesHoldNames(dir)
    ensures |rows| == if offset <= |dir| then Min(|dir| - offset, maxFiles) else 0
    ensures forall i :: 0 <= i < |rows| ==> rows[i] == dir[offset + i][..NAME_SIZE]
  {
    if offset >= |dir| then []
    else
      var hi := Min(|dir|, offset + maxFiles);
      seq(hi - offset, i requires 0 <= i < hi - offset => dir[offset + i][..NAME_SIZE])
  }

  /** sd_list_files: `dirOpened` says whether opendir succeeded; `rows` are the
      rows of the name matrix written, in order; `result` is
      `each_file - offset_files`, as returned. */
  method ListFiles(dir: seq<seq<bv8>>, dirOpened: bool, maxFiles: nat, offset: nat)
    returns (rows: seq<seq<bv8>>, result: int)
    requires EntriesHoldNames(dir)
    ensures rows == (if dirOpened then Window(dir, maxFiles, offset) else [])
    ensures !dirOpened ==> result == -(offset as int)
    ensures dirOpened ==> result == Min(|dir|, maxFiles + offset) - offset
    ensures result >= 0 ==> |rows| == result
    ensures result < 0 ==> rows == []
    ensures result <= maxFiles
  {
    var eachFile := 0;
    rows := [];
    if dirOpened {
      while eachFile < |dir| && eachFile < maxFiles + offset
        invariant 0 <= eachFile <= Min(|dir|, maxFiles + offset)
        invariant eachFile <= offset ==> rows == []
        invariant eachFile > offset ==> |rows| == eachFile - offset
        invariant forall i :: 0 <= i < |rows| ==> rows[i] == dir[offset + i][..NAME_SIZE]
      {
        if eachFile >= offset {
          rows := rows + [dir[eachFile][..NAME_SIZE]];
        }
        eachFile := eachFile + 1;
      }
    }
    result := eachFile - offset;
  }

  /** `uint8_t total_read_files = sd_list_files(...)`: the int is truncated
      to its low eight bits. */
  function ReadCountAsWritten(result: int): (n: nat)
    ensures n < 256
    ensures 0 <= result < 256 ==> n == result
  {
    result % 256
  }

  /** The caller's loop pushes rows 0 .. total_read_files-1 of a 5-row
      matrix. A directory that cannot be dirOpened while one name is still
      queued gives -1, which becomes 255: rows far past the matrix are read,
      and FILES_AVAILABLE is not cleared because 255 >= 5. */
  lemma ReadCountOverrun()
    ensures ReadCountAsWritten(0 - 1) == 255
    ensures ReadCountAsWritten(0 - 1) > MAX_OPEN_FILES
  {
  }

  /** Any negative result at all overruns the matrix. */
  lemma NegativeResultOverruns(result: int)
    requires -256 + MAX_OPEN_FILES < result < 0
    ensures ReadCountAsWritten(result) > MAX_OPEN_FILES
  {
  }

  /** The count as intended: a failed or short listing yields no names. */
  function ReadCount(result: int): (n: nat)
    ensures result <= 0 ==> n == 0
    ensures result > 0 ==> n == result
  {
    if result < 0 then 0 else result
  }

  /** With the intended count, the rows pushed are exactly the rows written,
      never more than the matrix holds. */
  method ListForQueue(dir: seq<seq<bv8>>, dirOpened: bool, queued: nat)
    returns (names: seq<seq<bv8>>, more: bool)
    requires EntriesHoldNames(dir)
    ensures |names| <= MAX_OPEN_FILES
    ensures names == (if dirOpened then Window(dir, MAX_OPEN_FILES, queued) else [])
    ensures more <==> |names| == MAX_OPEN_FILES
  {
    var rows, result := ListFiles(dir, dirOpened, MAX_OPEN_FILES, queued);
    var total := ReadCount(result);
    names := rows[..total];
    more := total >= MAX_OPEN_FILES;
  }
}
