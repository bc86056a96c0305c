/**
 Reading one directory entry as a line of text into a buffer of given size.  The line is
 put together piece by piece, each piece printed behind the text so far and cut off where
 the buffer ends.
 */
module DirRead {

  import opened Options

  // ---------- printing ----------

  function Min(a: nat, b: nat): nat {
    if a < b then a else b
  }

  /**
   The buffer after snprintf(buffer + ofs, n, "%s", s) as in section 7.19.6.5 of ISO C99: at
   most n - 1 characters and a terminator are written, and nothing when n is 0.
   */
  function Printed(buf: seq<char>, ofs: nat, n: nat, s: string): (r: seq<char>)
    requires ofs + n <= |buf|
    ensures |r| == |buf|
  {
    if n == 0 then buf else
    var k := Min(|s|, n - 1);
    buf[..ofs] + s[..k] + ['\0'] + buf[ofs + k + 1..]
  }

  /** One append: where it is printed depends on the untruncated length so far. */
  function Appended(buf: seq<char>, size: nat, len: nat, piece: string): seq<char>
    requires size <= |buf|
  {
    Printed(buf, Min(len, size), size - Min(len, size), piece)
  }

  /** Appending all pieces in turn, from untruncated length len on. */
  function AppendAll(buf: seq<char>, size: nat, len: nat, pieces: seq<string>): (r: seq<char>)
    requires size <= |buf|
    ensures |r| == |buf|
    decreases |pieces|
  {
    if pieces == [] then buf
    else AppendAll(Appended(buf, size, len, pieces[0]), size, len + |pieces[0]|, pieces[1..])
  }

  function Concat(pieces: seq<string>): string {
    if pieces == [] then "" else pieces[0] + Concat(pieces[1..])
  }

  /** The first size bytes hold the longest prefix of text that fits, and a terminator behind it. */
  ghost predicate Shows(buf: seq<char>, size: nat, text: string)
    requires size <= |buf|
  {
    0 < size ==> buf[..Min(|text|, size - 1)] == text[..Min(|text|, size - 1)] && buf[Min(|text|, size - 1)] == '\0'
  }

  /** A bounded print shows its text, and writes only inside the buffer. */
  lemma PrintedShows(buf: seq<char>, size: nat, text: string)
    requires size <= |buf|
    ensures var r := Printed(buf, 0, size, text); Shows(r, size, text) && r[size..] == buf[size..]
  {
  }

  /** Where the line stands before an append: nothing was printed yet, or the text so far was. */
  ghost predicate Holds(buf: seq<char>, before: seq<char>, size: nat, text: string)
    requires size <= |before|
  {
    (text == "" && buf == before) || buf == Printed(before, 0, size, text)
  }

  /** One append behind a bounded print leaves what one bounded print of the longer text leaves. */
  lemma AppendPrints(buf: seq<char>, before: seq<char>, size: nat, text: string, piece: string)
    requires size <= |before| && Holds(buf, before, size, text)
    ensures |buf| == |before| && Appended(buf, size, |text|, piece) == Printed(before, 0, size, text + piece)
  {
    if |text| < size {
      hide Holds, Appended, Printed;
      HoldsFitting(buf, before, size, text);
      AppendFitting(buf, before, size, text, piece);
    } else if 0 < size {
      assert (text + piece)[..size - 1] == text[..size - 1];
    }
  }

  /** An append to a text that leaves room. */
  lemma AppendFitting(buf: seq<char>, before: seq<char>, size: nat, text: string, piece: string)
    requires |text| < size <= |buf| == |before| && buf[..|text|] == text
    requires forall i :: |text| < i <= |buf| ==> buf[i..] == before[i..]
    ensures Appended(buf, size, |text|, piece) == Printed(before, 0, size, text + piece)
  {
    var k := Min(|piece|, size - |text| - 1);
    assert Min(|text + piece|, size - 1) == |text| + k;
    assert (text + piece)[..|text| + k] == text + piece[..k];
    assert before[..0] + (text + piece[..k]) == text + piece[..k];
    assert buf[|text| + k + 1..] == before[|text| + k + 1..];
  }

  lemma HoldsFitting(buf: seq<char>, before: seq<char>, size: nat, text: string)
    requires size <= |before| && Holds(buf, before, size, text) && |text| < size
    ensures |buf| == |before| && buf[..|text|] == text
    ensures forall i :: |text| < i <= |buf| ==> buf[i..] == before[i..]
  {
  }

  /** Piecewise appending equals one bounded print of the concatenation, for every list of pieces. */
  lemma {:induction false} AppendAllPrints(buf: seq<char>, before: seq<char>, size: nat, text: string,
                                           pieces: seq<string>)
    requires size <= |before| && Holds(buf, before, size, text)
    ensures |buf| == |before| && Holds(AppendAll(buf, size, |text|, pieces), before, size, text + Concat(pieces))
    ensures pieces != [] ==> AppendAll(buf, size, |text|, pieces) == Printed(before, 0, size, text + Concat(pieces))
    decreases |pieces|
  {
    hide Printed, Appended;
    if pieces == [] {
      assert text + Concat(pieces) == text;
    } else {
      AppendPrints(buf, before, size, text, pieces[0]);
      var next := text + pieces[0];
      assert next + Concat(pieces[1..]) == text + Concat(pieces);
      AppendAllPrints(Appended(buf, size, |text|, pieces[0]), before, size, next, pieces[1..]);
      if pieces[1..] == [] {
        assert next == text + Concat(pieces);
      }
    }
  }

  /** On a whole line: printing its pieces one by one is printing the line at once. */
  lemma LineAtOnce(before: seq<char>, size: nat, pieces: seq<string>)
    requires size <= |before| && pieces != []
    ensures AppendAll(before, size, 0, pieces) == Printed(before, 0, size, Concat(pieces))
  {
    AppendAllPrints(before, before, size, "", pieces);
    assert "" + Concat(pieces) == Concat(pieces);
  }

  // ---------- the pieces of a line ----------

  /** %lu */
  function Decimal(n: nat): string {
    if n < 10 then ['0' + n as char] else Decimal(n / 10) + ['0' + (n % 10) as char]
  }

  function Fill(c: char, s: string, width: nat): string {
    if |s| < width then seq(width - |s|, _ => c) + s else s
  }

  /** %-12.12s */
  function Name12(s: string): string {
    var cut := s[..Min(|s|, 12)];
    cut + seq(12 - |cut|, _ => ' ')
  }

  datatype Mode = Unix | MsDos | FileName

  /** A 16-bit field as a number. */
  function Nat(x: bv16): nat {
    x as nat
  }

  datatype SearchData = SearchData(attribute: bv8, time: bv16, date: bv16, fileSize: nat, name: string) {
    predicate Has(flag: bv8) {
      attribute & flag != 0
    }

    function MonthBits(): bv16 { (date & 0x01E0) >> 5 }
    function DayBits(): bv16 { date & 0x001F }
    function YearBits(): bv16 { (date & 0xFE00) >> 9 }
    function HourBits(): bv16 { (time & 0xF800) >> 11 }
    function MinuteBits(): bv16 { (time & 0x07E0) >> 5 }
    function PairBits(): bv16 { time & 0x001F }
    function SecondBits(): bv16 { PairBits() << 1 }

    function Month(): nat { Nat(MonthBits()) }
    function Day(): nat { Nat(DayBits()) }
    function Year(): nat { Nat(YearBits()) + 1980 }
    function Hours(): nat { Nat(HourBits()) }
    function Minutes(): nat { Nat(MinuteBits()) }
    function Seconds(): nat { Nat(SecondBits()) }
  }

  const READ_ONLY: bv8 := 0x01
  const HIDDEN: bv8 := 0x02
  const SYSTEM: bv8 := 0x04
  const VOLUME: bv8 := 0x08
  const DIRECTORY: bv8 := 0x10
  const ARCHIVE: bv8 := 0x20

  const MONTHS := ["???", "Jan", "Feb", "Mar", "Apr", "May", "Jun", "Jul", "Aug", "Sep", "Oct", "Nov", "Dec"]

  function MonthName(month: nat): string {
    if month > 12 then MONTHS[0] else MONTHS[month]
  }

  function Flag(e: SearchData, flag: bv8, yes: char, no: char): string {
    if e.Has(flag) then [yes] else [no]
  }

  /** %02lu-%02lu-%04lu */
  function DateField(e: SearchData): string {
    Fill('0', Decimal(e.Month()), 2) + "-" + Fill('0', Decimal(e.Day()), 2) + "-" + Fill('0', Decimal(e.Year()), 4)
  }

  /** %02lu:%02lu:%02lu */
  function TimeField(e: SearchData): string {
    Fill('0', Decimal(e.Hours()), 2) + ":" + Fill('0', Decimal(e.Minutes()), 2) + ":"
    + Fill('0', Decimal(e.Seconds()), 2)
  }

  function FlagField(e: SearchData): string {
    Flag(e, READ_ONLY, 'R', ' ') + Flag(e, HIDDEN, 'H', ' ') + Flag(e, SYSTEM, 'S', ' ')
    + Flag(e, VOLUME, 'V', ' ') + Flag(e, DIRECTORY, 'D', ' ') + Flag(e, ARCHIVE, 'A', ' ')
  }

  function MsDosPiece(e: SearchData): string {
    Name12(e.name) + " " + Fill(' ', Decimal(e.fileSize), 8) + " " + DateField(e) + " " + TimeField(e) + " "
    + FlagField(e) + " "
  }

  function PermissionPiece(e: SearchData): string {
    var w := Flag(e, READ_ONLY, '-', 'w');
    Flag(e, DIRECTORY, 'd', '-') + "r" + w + "-r" + w + "-r" + w + "-   1 "
  }

  const OWNER_PIECE := "ftp      ftp  "

  function SizePiece(e: SearchData): string {
    "  " + Fill(' ', Decimal(e.fileSize), 10) + " "
  }

  function DayPiece(e: SearchData): string {
    Fill(' ', MonthName(e.Month()), 3) + " " + Fill('0', Decimal(e.Day()), 2) + " "
  }

  function YearPiece(e: SearchData): string {
    " " + Fill(' ', Decimal(e.Year()), 4) + " "
  }

  /** The long name when it could be read, else the short one. */
  function NamePiece(e: SearchData, longName: Option<string>): string {
    (if longName.Some? then longName.value else e.name) + "\r\n"
  }

  /** Every piece of a line, in the order of printing. */
  function Pieces(e: SearchData, mode: Mode, longName: Option<string>): (p: seq<string>)
    ensures p != []
  {
    (match mode
     case MsDos => [MsDosPiece(e)]
     case Unix => [PermissionPiece(e), OWNER_PIECE, SizePiece(e), DayPiece(e), YearPiece(e)]
     case FileName => [])
    + [NamePiece(e, longName)]
  }

  // ---------- the call ----------

  /** snprintf of an already formatted piece. */
  method Snprintf(buffer: array<char>, ofs: nat, n: nat, s: string) returns (count: nat)
    requires ofs + n <= buffer.Length
    modifies buffer
    ensures buffer[..] == Printed(old(buffer[..]), ofs, n, s)
    ensures count == |s|
  {
    count := |s|;
    if n == 0 {
      return;
    }
    var k := Min(|s|, n - 1);
    forall i | 0 <= i < k {
      buffer[ofs + i] := s[i];
    }
    buffer[ofs + k] := '\0';
  }

  /** One append of _io_mfs_dir_read, behind the text printed so far. */
  method Append(buffer: array<char>, size: nat, len: nat, piece: string, ghost before: seq<char>, ghost text: string)
    returns (newLen: nat)
    requires size <= buffer.Length == |before| && len == |text| && Holds(buffer[..], before, size, text)
    modifies buffer
    ensures newLen == |text + piece| && buffer[..] == Printed(before, 0, size, text + piece)
  {
    AppendPrints(buffer[..], before, size, text, piece);
    hide Printed;
    var ofs := if len < size then len else size;
    var count := Snprintf(buffer, ofs, size - ofs, piece);
    newLen := len + count;
  }

  /** The five pieces of a line in the style of a Unix listing. */
  method AppendUnix(buffer: array<char>, size: nat, e: SearchData) returns (len: nat)
    requires size <= buffer.Length
    modifies buffer
    ensures var text := PermissionPiece(e) + OWNER_PIECE + SizePiece(e) + DayPiece(e) + YearPiece(e);
            len == |text| && buffer[..] == Printed(old(buffer[..]), 0, size, text)
  {
    hide Printed, PermissionPiece, SizePiece, DayPiece, YearPiece;
    ghost var before := buffer[..];
    len := Append(buffer, size, 0, PermissionPiece(e), before, "");
    ghost var text := "" + PermissionPiece(e);
    assert text == PermissionPiece(e);
    len := Append(buffer, size, len, OWNER_PIECE, before, text);
    text := text + OWNER_PIECE;
    len := Append(buffer, size, len, SizePiece(e), before, text);
    text := text + SizePiece(e);
    len := Append(buffer, size, len, DayPiece(e), before, text);
    text := text + DayPiece(e);
    len := Append(buffer, size, len, YearPiece(e), before, text);
  }

  /** The last write puts a terminator at the end of the buffer. */
  function Terminated(buf: seq<char>, size: nat): (r: seq<char>)
    requires size <= |buf|
    ensures |r| == |buf| && r[size..] == buf[size..]
  {
    if size == 0 then buf else buf[size - 1 := '\0']
  }

  /** It leaves the text that a bounded print shows as it is. */
  lemma TerminatedShows(buf: seq<char>, size: nat, text: string)
    requires size <= |buf| && Shows(buf, size, text)
    ensures Shows(Terminated(buf, size), size, text)
  {
    if 0 < size {
      var k := Min(|text|, size - 1);
      assert Terminated(buf, size)[..k] == buf[..k];
    }
  }

  class DirStruct {
    var mode: Mode
    var first: bool

    constructor (mode: Mode)
      ensures this.mode == mode && first
    {
      this.mode, first := mode, true;
    }

    /**
     _io_mfs_dir_read: found and e are what the file system returns for the next entry, and
     longName what it returns for its long name.
     */
    method Read(found: bool, e: SearchData, longName: Option<string>, buffer: array<char>, size: nat)
      returns (len: int)
      requires size <= buffer.Length
      modifies this, buffer
      ensures !first && mode == old(mode)
      ensures !found ==> len == -1 && buffer[..] == old(buffer[..])
      ensures found ==>
                var line := Concat(Pieces(e, mode, longName));
                && len == |line| && buffer[..] == Terminated(Printed(old(buffer[..]), 0, size, line), size)
                && Shows(buffer[..], size, line) && buffer[size..] == old(buffer[size..])
                && (size > 0 ==> buffer[size - 1] == '\0')
    {
      first := false;
      if !found {
        return -1;
      }
      hide Printed, Shows, PermissionPiece, SizePiece, DayPiece, YearPiece, MsDosPiece, NamePiece;
      ghost var before := buffer[..];
      var n := 0;
      ghost var text := "";
      if mode == MsDos {
        n := Append(buffer, size, n, MsDosPiece(e), before, text);
        text := text + MsDosPiece(e);
      } else if mode == Unix {
        n := AppendUnix(buffer, size, e);
        text := PermissionPiece(e) + OWNER_PIECE + SizePiece(e) + DayPiece(e) + YearPiece(e);
      }
      n := Append(buffer, size, n, NamePiece(e, longName), before, text);
      LineIsText(e, mode, longName);
      PrintedShows(before, size, text + NamePiece(e, longName));
      TerminatedShows(buffer[..], size, text + NamePiece(e, longName));
      if size > 0 {
        buffer[size - 1] := '\0';
      }
      len := n;
    }
  }

  /** The concatenation of the pieces, mode by mode. */
  lemma LineIsText(e: SearchData, mode: Mode, longName: Option<string>)
    ensures Concat(Pieces(e, mode, longName)) ==
            (match mode
             case MsDos => "" + MsDosPiece(e)
             case Unix => PermissionPiece(e) + OWNER_PIECE + SizePiece(e) + DayPiece(e) + YearPiece(e)
             case FileName => "")
            + NamePiece(e, longName)
  {
    hide PermissionPiece, SizePiece, DayPiece, YearPiece, MsDosPiece, NamePiece, Concat;
    var name := NamePiece(e, longName);
    match mode
    case MsDos =>
      assert "" + MsDosPiece(e) == MsDosPiece(e);
      TwoPieces(MsDosPiece(e), name);
    case Unix =>
      assert Pieces(e, mode, longName) ==
             [PermissionPiece(e), OWNER_PIECE, SizePiece(e), DayPiece(e), YearPiece(e), name];
      SixPieces(PermissionPiece(e), OWNER_PIECE, SizePiece(e), DayPiece(e), YearPiece(e), name);
    case FileName =>
      assert Pieces(e, mode, longName) == [name] && "" + name == name;
      OnePiece(name);
  }

  lemma OnePiece(a: string)
    ensures Concat([a]) == a
  {
  }

  lemma TwoPieces(a: string, b: string)
    ensures Concat([a] + [b]) == a + b
  {
    assert ([a] + [b])[1..] == [b];
    OnePiece(b);
  }

  lemma MorePieces(a: string, rest: seq<string>)
    ensures Concat([a] + rest) == a + Concat(rest)
  {
    assert ([a] + rest)[1..] == rest;
  }

  lemma SixPieces(a: string, b: string, c: string, d: string, e: string, f: string)
    ensures Concat([a, b, c, d, e, f]) == a + b + c + d + e + f
  {
    hide Concat;
    OnePiece(f);
    MorePieces(e, [f]);
    MorePieces(d, [e] + [f]);
    MorePieces(c, [d] + ([e] + [f]));
    MorePieces(b, [c] + ([d] + ([e] + [f])));
    MorePieces(a, [b] + ([c] + ([d] + ([e] + [f]))));
    assert [a, b, c, d, e, f] == [a] + ([b] + ([c] + ([d] + ([e] + [f]))));
    assert a + b + c + d + e + f == a + (b + (c + (d + (e + f))));
  }
}
