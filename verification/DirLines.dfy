/**
 What can be read back from a directory line: numbers, dates and flags at their columns, without
 regard to how the line was put together.
 */
module DirLines {
  import opened Options
  import opened DirRead

  // ---------- numbers ----------

  predicate IsDigit(c: char) {
    '0' <= c <= '9'
  }

  function Digit(c: char): nat
    requires IsDigit(c)
  {
    c as nat - '0' as nat
  }

  /** The number that decimal digits stand for, most significant digit first. */
  function Value(s: string): nat
    requires forall i :: 0 <= i < |s| ==> IsDigit(s[i])
  {
    if s == [] then 0 else Value(s[..|s| - 1]) * 10 + Digit(s[|s| - 1])
  }

  /** Digits without a superfluous zero in front. */
  predicate Numeral(s: string) {
    s != [] && (forall i :: 0 <= i < |s| ==> IsDigit(s[i])) && (|s| > 1 ==> s[0] != '0')
  }

  /** The text is n in decimal, right-justified behind padding. */
  ghost predicate Column(s: string, pad: char, n: nat) {
    exists k: nat :: k < |s| && (forall i :: 0 <= i < k ==> s[i] == pad) && Shows10(s[k..], n)
  }

  predicate Shows10(s: string, n: nat) {
    Numeral(s) && Value(s) == n
  }

  /** Printing a number in decimal and reading it gives the number back. */
  lemma {:induction false} DecimalReads(n: nat)
    ensures Shows10(Decimal(n), n) && (n > 0 ==> Decimal(n)[0] != '0')
  {
    var s := Decimal(n);
    if n < 10 {
      assert s[..0] == [];
    } else {
      DecimalReads(n / 10);
      assert s[..|s| - 1] == Decimal(n / 10);
    }
  }

  lemma {:induction false} DecimalWidth(n: nat, w: nat, bound: nat)
    requires w > 0 && n < bound && Power(w) == bound
    ensures |Decimal(n)| <= w
    decreases w
  {
    if n >= 10 {
      DecimalWidth(n / 10, w - 1, Power(w - 1));
    }
  }

  function Power(w: nat): nat {
    if w == 0 then 1 else 10 * Power(w - 1)
  }

  /** A number printed in a column of given width: padded on the left, and never cut off. */
  lemma FillColumn(pad: char, n: nat, w: nat)
    ensures var s := Fill(pad, Decimal(n), w);
            Column(s, pad, n) && |s| >= w && (|s| > w ==> Numeral(s))
  {
    DecimalReads(n);
    var d := Decimal(n);
    var s := Fill(pad, d, w);
    var k := |s| - |d|;
    assert s[k..] == d;
  }

  lemma FixedColumn(pad: char, n: nat, w: nat)
    requires w > 0 && n < Power(w)
    ensures var s := Fill(pad, Decimal(n), w); Column(s, pad, n) && |s| == w
  {
    FillColumn(pad, n, w);
    DecimalWidth(n, w, Power(w));
  }

  // ---------- packed fields ----------

  lemma JoinLow(a: bv16, b: bv16)
    requires a < 64 && b < 32
    ensures Nat(a * 32 + b) == Nat(a) * 32 + Nat(b) && Nat(a) < 64 && Nat(b) < 32
  {
  }

  lemma JoinDate(a: bv16, b: bv16)
    requires a < 128 && b < 512
    ensures Nat(a * 512 + b) == Nat(a) * 512 + Nat(b) && Nat(a) < 128
  {
  }

  lemma JoinTime(a: bv16, b: bv16)
    requires a < 32 && b < 2048
    ensures Nat(a * 2048 + b) == Nat(a) * 2048 + Nat(b) && Nat(a) < 32
  {
  }

  lemma Double(a: bv16)
    requires a < 32
    ensures Nat(a << 1) == Nat(a) * 2
  {
  }

  lemma SmallMonth(m: bv16)
    requires m < 16
    ensures Nat(m) < 16
  {
  }

  lemma DateBits(date: bv16)
    ensures var (y, m, d) := ((date & 0xFE00) >> 9, (date & 0x01E0) >> 5, date & 0x001F);
            date == y * 512 + (m * 32 + d) && y < 128 && m < 16 && d < 32 && m * 32 + d < 512
  {
  }

  lemma TimeBits(time: bv16)
    ensures var (h, m, s) := ((time & 0xF800) >> 11, (time & 0x07E0) >> 5, time & 0x001F);
            time == h * 2048 + (m * 32 + s) && h < 32 && m < 64 && s < 32 && m * 32 + s < 2048
  {
  }

  lemma SplitDate(e: SearchData)
    ensures var (y, m, d) := (e.YearBits(), e.MonthBits(), e.DayBits());
            e.date == y * 512 + (m * 32 + d) && y < 128 && m < 16 && d < 32 && m * 32 + d < 512
  {
    DateBits(e.date);
  }

  lemma SplitTime(e: SearchData)
    ensures var (h, m, s) := (e.HourBits(), e.MinuteBits(), e.PairBits());
            e.time == h * 2048 + (m * 32 + s) && h < 32 && m < 64 && s < 32 && m * 32 + s < 2048
    ensures e.SecondBits() == e.PairBits() << 1
  {
    TimeBits(e.time);
  }

  /** Year, month and day are the packed date. */
  lemma DateIsPacked(e: SearchData)
    ensures 1980 <= e.Year() < 2108 && e.Month() < 16 && e.Day() < 32
    ensures Nat(e.date) == (e.Year() - 1980) * 512 + e.Month() * 32 + e.Day()
  {
    hide Nat, SearchData.YearBits, SearchData.MonthBits, SearchData.DayBits;
    var (y, m, d) := (e.YearBits(), e.MonthBits(), e.DayBits());
    SplitDate(e);
    JoinLow(m, d);
    JoinDate(y, m * 32 + d);
    SmallMonth(m);
  }

  /** Hours, minutes and seconds are the packed time, which counts pairs of seconds. */
  lemma TimeIsPacked(e: SearchData)
    ensures e.Hours() < 32 && e.Minutes() < 64 && e.Seconds() < 64 && e.Seconds() % 2 == 0
    ensures Nat(e.time) == e.Hours() * 2048 + e.Minutes() * 32 + e.Seconds() / 2
  {
    hide Nat, SearchData.HourBits, SearchData.MinuteBits, SearchData.PairBits, SearchData.SecondBits;
    var (h, m, s) := (e.HourBits(), e.MinuteBits(), e.PairBits());
    SplitTime(e);
    JoinLow(m, s);
    JoinTime(h, m * 32 + s);
    Double(s);
  }

  // ---------- fields of fixed width ----------

  /** A name cut or padded with blanks on the right to 12 characters. */
  ghost predicate NameColumn(s: string, name: string) {
    |s| == 12 && forall i :: 0 <= i < 12 ==> s[i] == if i < |name| then name[i] else ' '
  }

  /** The packed date in the form MM-DD-YYYY. */
  ghost predicate DateColumns(s: string, date: nat) {
    && |s| == 10 && s[2] == '-' && s[5] == '-'
    && exists year: nat, month: nat, day: nat ::
         && Column(s[..2], '0', month) && Column(s[3..5], '0', day) && Column(s[6..], '0', year)
         && PackedDate(date, year, month, day)
  }

  predicate PackedDate(date: nat, year: nat, month: nat, day: nat) {
    1980 <= year && month < 16 && day < 32 && date == (year - 1980) * 512 + month * 32 + day
  }

  /** The packed time in the form hh:mm:ss. */
  ghost predicate TimeColumns(s: string, time: nat) {
    && |s| == 8 && s[2] == ':' && s[5] == ':'
    && exists hours: nat, minutes: nat, seconds: nat ::
         && Column(s[..2], '0', hours) && Column(s[3..5], '0', minutes) && Column(s[6..], '0', seconds)
         && PackedTime(time, hours, minutes, seconds)
  }

  predicate PackedTime(time: nat, hours: nat, minutes: nat, seconds: nat) {
    minutes < 64 && seconds < 64 && seconds % 2 == 0 && time == hours * 2048 + minutes * 32 + seconds / 2
  }

  /** One letter for each attribute bit that is set. */
  ghost predicate FlagColumns(s: string, a: bv8) {
    && |s| == 6
    && s[0] == (if a & 0x01 != 0 then 'R' else ' ') && s[1] == (if a & 0x02 != 0 then 'H' else ' ')
    && s[2] == (if a & 0x04 != 0 then 'S' else ' ') && s[3] == (if a & 0x08 != 0 then 'V' else ' ')
    && s[4] == (if a & 0x10 != 0 then 'D' else ' ') && s[5] == (if a & 0x20 != 0 then 'A' else ' ')
  }

  lemma NameIsColumn(name: string)
    ensures NameColumn(Name12(name), name)
  {
  }

  lemma FlagsAreColumns(e: SearchData)
    ensures FlagColumns(FlagField(e), e.attribute)
  {
  }

  lemma DateIsColumns(e: SearchData)
    ensures DateColumns(DateField(e), Nat(e.date))
  {
    hide Column, Decimal, Nat, Fill;
    DateIsPacked(e);
    Powers();
    FixedColumn('0', e.Month(), 2);
    FixedColumn('0', e.Day(), 2);
    FixedColumn('0', e.Year(), 4);
    ThreeParts(Fill('0', Decimal(e.Month()), 2), "-", Fill('0', Decimal(e.Day()), 2), Fill('0', Decimal(e.Year()), 4));
    assert PackedDate(Nat(e.date), e.Year(), e.Month(), e.Day());
  }

  lemma TimeIsColumns(e: SearchData)
    ensures TimeColumns(TimeField(e), Nat(e.time))
  {
    hide Column, Decimal, Nat, Fill;
    TimeIsPacked(e);
    Powers();
    FixedColumn('0', e.Hours(), 2);
    FixedColumn('0', e.Minutes(), 2);
    FixedColumn('0', e.Seconds(), 2);
    ThreeParts(Fill('0', Decimal(e.Hours()), 2), ":", Fill('0', Decimal(e.Minutes()), 2),
               Fill('0', Decimal(e.Seconds()), 2));
    assert PackedTime(Nat(e.time), e.Hours(), e.Minutes(), e.Seconds());
  }

  lemma Powers()
    ensures Power(2) == 100 && Power(4) == 10000
  {
    assert Power(1) == 10 && Power(3) == 1000;
  }

  lemma ThreeParts(a: string, mark: string, b: string, c: string)
    requires |a| == 2 && |mark| == 1 && |b| == 2
    ensures var s := a + mark + b + mark + c;
            && |s| == 6 + |c| && s[..2] == a && s[2] == mark[0] && s[3..5] == b && s[5] == mark[0] && s[6..] == c
  {
  }

  // ---------- lines ----------

  /** A piece is found in the line at the length of what is printed before it. */
  lemma PieceAt(line: string, before: string, piece: string)
    requires before + piece <= line
    ensures line[|before|..|before| + |piece|] == piece
  {
    assert (before + piece)[|before|..] == piece;
  }

  /** The name that ends a line. */
  function LastName(e: SearchData, longName: Option<string>): string {
    match longName
    case Some(name) => name
    case None => e.name
  }

  /**
   A line in the style of MS-DOS, column by column.  Only the size, which is never cut off, can
   be wider than its column.
   */
  ghost predicate MsDosColumns(line: string, w: nat, e: SearchData) {
    && |line| > 40 + w && w >= 8
    && NameColumn(line[..12], e.name) && line[12] == ' '
    && Column(line[13..13 + w], ' ', e.fileSize) && (w > 8 ==> Numeral(line[13..13 + w])) && line[13 + w] == ' '
    && DateColumns(line[14 + w..24 + w], Nat(e.date)) && line[24 + w] == ' '
    && TimeColumns(line[25 + w..33 + w], Nat(e.time)) && line[33 + w] == ' '
    && FlagColumns(line[34 + w..40 + w], e.attribute) && line[40 + w] == ' '
  }

  /** The pieces of an MS-DOS line by their columns. */
  lemma MsDosSlices(name: string, size: string, date: string, time: string, flags: string, last: string)
    requires |name| == 12 && |date| == 10 && |time| == 8 && |flags| == 6
    ensures var w := |size|; var line := name + " " + size + " " + date + " " + time + " " + flags + " " + last;
            && |line| > 40 + w && line[..12] == name && line[12] == ' ' && line[13..13 + w] == size
            && line[13 + w] == ' ' && line[14 + w..24 + w] == date && line[24 + w] == ' '
            && line[25 + w..33 + w] == time && line[33 + w] == ' ' && line[34 + w..40 + w] == flags
            && line[40 + w] == ' ' && line[41 + w..] == last
  {
    var w := |size|;
    var p := name + " ";
    var q := p + size + " ";
    var r := q + date + " ";
    var s := r + time + " ";
    var t := s + flags + " ";
    var line := t + last;
    assert s <= t <= line && r <= s && q <= r && p <= q;
    PieceAt(line, "", name);
    PieceAt(line, p, size);
    PieceAt(line, q, date);
    PieceAt(line, r, time);
    PieceAt(line, s, flags);
    assert line[12] == p[12] && line[13 + w] == q[13 + w] && line[24 + w] == r[24 + w];
    assert line[33 + w] == s[33 + w] && line[40 + w] == t[40 + w];
  }

  lemma MsDosText(e: SearchData, longName: Option<string>)
    ensures Concat(Pieces(e, MsDos, longName))
            == Name12(e.name) + " " + Fill(' ', Decimal(e.fileSize), 8) + " " + DateField(e) + " " + TimeField(e) + " "
               + FlagField(e) + " " + NamePiece(e, longName)
  {
    hide Decimal, Fill, DateField, TimeField, FlagField, Name12, NamePiece, Concat, Pieces;
    LineIsText(e, MsDos, longName);
    assert "" + MsDosPiece(e) == MsDosPiece(e);
  }

  /**
   From an MS-DOS line one reads name, size, date, time and attributes; it ends with the long name
   if there is one.
   */
  lemma MsDosLine(e: SearchData, longName: Option<string>)
    ensures var line := Concat(Pieces(e, MsDos, longName)); var name := LastName(e, longName);
            exists w: nat :: MsDosColumns(line, w, e) && line[41 + w..] == name + "\r\n"
  {
    hide Column, Decimal, Nat, Fill, DateField, TimeField, FlagField, Name12, Numeral, Concat, Pieces;
    hide NameColumn, DateColumns, TimeColumns, FlagColumns;
    var size := Fill(' ', Decimal(e.fileSize), 8);
    MsDosText(e, longName);
    FieldWidths(e);
    MsDosSlices(Name12(e.name), size, DateField(e), TimeField(e), FlagField(e), NamePiece(e, longName));
    assert MsDosColumns(Concat(Pieces(e, MsDos, longName)), |size|, e);
  }

  /** Each field of an MS-DOS line shows what it should. */
  lemma FieldWidths(e: SearchData)
    ensures NameColumn(Name12(e.name), e.name) && |Name12(e.name)| == 12
    ensures DateColumns(DateField(e), Nat(e.date)) && |DateField(e)| == 10
    ensures TimeColumns(TimeField(e), Nat(e.time)) && |TimeField(e)| == 8
    ensures FlagColumns(FlagField(e), e.attribute) && |FlagField(e)| == 6
    ensures var size := Fill(' ', Decimal(e.fileSize), 8);
            Column(size, ' ', e.fileSize) && |size| >= 8 && (|size| > 8 ==> Numeral(size))
  {
    hide Column, Decimal, Nat, Fill, DateField, TimeField, FlagField, Name12;
    NameIsColumn(e.name);
    DateIsColumns(e);
    TimeIsColumns(e);
    FlagsAreColumns(e);
    FillColumn(' ', e.fileSize, 8);
  }

  /** A line without details is the name alone. */
  lemma NameLine(e: SearchData, longName: Option<string>)
    ensures Concat(Pieces(e, FileName, longName)) == LastName(e, longName) + "\r\n"
  {
    LineIsText(e, FileName, longName);
  }

  /** The permissions: a directory or not, and writable or not, for owner, group and others. */
  ghost predicate PermissionColumns(s: string, a: bv8) {
    && |s| == 15
    && s[0] == (if a & 0x10 != 0 then 'd' else '-')
    && s[1] == s[4] == s[7] == 'r'
    && s[2] == s[5] == s[8] == (if a & 0x01 != 0 then '-' else 'w')
    && s[3] == s[6] == s[9] == '-'
    && s[10..] == "   1 "
  }

  /** The name of a month, and question marks for what is no month. */
  function MonthText(month: nat): string
    requires month < 16
  {
    match month
    case 1 => "Jan" case 2 => "Feb" case 3 => "Mar" case 4 => "Apr" case 5 => "May" case 6 => "Jun"
    case 7 => "Jul" case 8 => "Aug" case 9 => "Sep" case 10 => "Oct" case 11 => "Nov" case 12 => "Dec"
    case _ => "???"
  }

  /** A line in the style of a Unix listing, column by column; w is the width of the size. */
  ghost predicate UnixColumns(line: string, w: nat, e: SearchData) {
    && |line| > 44 + w && w >= 10
    && PermissionColumns(line[..15], e.attribute)
    && line[15..31] == "ftp      ftp    "
    && Column(line[31..31 + w], ' ', e.fileSize) && (w > 10 ==> Numeral(line[31..31 + w])) && line[31 + w] == ' '
    && DayColumns(line[32 + w..45 + w], Nat(e.date))
  }

  /** The packed date in the form Mon DD YYYY, in a text that begins with the month and ends with a blank. */
  ghost predicate DayColumns(s: string, date: nat) {
    && |s| == 13 && s[3] == ' ' && s[6] == ' ' && s[7] == ' ' && s[12] == ' '
    && exists year: nat, month: nat, day: nat ::
         && PackedDate(date, year, month, day)
         && s[..3] == MonthText(month) && Column(s[4..6], '0', day) && Column(s[8..12], ' ', year)
  }

  lemma PermissionsAreColumns(e: SearchData)
    ensures PermissionColumns(PermissionPiece(e), e.attribute)
  {
    var d := Flag(e, DIRECTORY, 'd', '-');
    var w := Flag(e, READ_ONLY, '-', 'w');
    assert PermissionPiece(e) == [d[0], 'r', w[0], '-', 'r', w[0], '-', 'r', w[0]] + "-   1 ";
    assert ([d[0], 'r', w[0], '-', 'r', w[0], '-', 'r', w[0]] + "-   1 ")[10..] == "   1 ";
  }

  lemma MonthIsText(month: nat)
    requires month < 16
    ensures Fill(' ', MonthName(month), 3) == MonthText(month)
  {
  }

  lemma DayIsColumns(e: SearchData)
    ensures DayColumns(DayPiece(e) + YearPiece(e), Nat(e.date))
  {
    hide Column, Decimal, Nat, Fill, MonthText, MonthName;
    DateIsPacked(e);
    Powers();
    MonthIsText(e.Month());
    MonthWidth(e.Month());
    FixedColumn('0', e.Day(), 2);
    FixedColumn(' ', e.Year(), 4);
    DaySlices(Fill(' ', MonthName(e.Month()), 3), Fill('0', Decimal(e.Day()), 2), Fill(' ', Decimal(e.Year()), 4));
    assert PackedDate(Nat(e.date), e.Year(), e.Month(), e.Day());
  }

  lemma MonthWidth(month: nat)
    requires month < 16
    ensures |MonthText(month)| == 3
  {
  }

  lemma DaySlices(month: string, day: string, year: string)
    requires |month| == 3 && |day| == 2 && |year| == 4
    ensures var s := (month + " " + day + " ") + (" " + year + " ");
            && |s| == 13 && s[..3] == month && s[3] == ' ' && s[4..6] == day && s[6] == ' ' && s[7] == ' '
            && s[8..12] == year && s[12] == ' '
  {
  }

  lemma UnixSlices(permissions: string, size: string, day: string, year: string, last: string)
    requires |permissions| == 15 && |day + year| == 13
    ensures var w := |size|;
            var line := permissions + OWNER_PIECE + ("  " + size + " ") + day + year + last;
            && |line| > 44 + w && line[..15] == permissions && line[15..31] == "ftp      ftp    "
            && line[31..31 + w] == size && line[31 + w] == ' ' && line[32 + w..45 + w] == day + year
            && line[45 + w..] == last
  {
    var w := |size|;
    var p := permissions + OWNER_PIECE;
    var q := p + ("  " + size + " ");
    var r := q + day + year;
    var line := r + last;
    assert p <= q && q <= q + day <= r <= line;
    PieceAt(line, "", permissions);
    assert p + "  " + size + " " == q;
    PieceAt(line, p + "  ", size);
    assert permissions + "ftp      ftp    " == p + "  ";
    PieceAt(line, permissions, "ftp      ftp    ");
    assert q + (day + year) == r;
    PieceAt(line, q, day + year);
    assert line[31 + w] == q[31 + w];
  }

  lemma UnixText(e: SearchData, longName: Option<string>)
    ensures Concat(Pieces(e, Unix, longName))
            == PermissionPiece(e) + OWNER_PIECE + ("  " + Fill(' ', Decimal(e.fileSize), 10) + " ") + DayPiece(e)
               + YearPiece(e) + NamePiece(e, longName)
  {
    hide Decimal, Fill, PermissionPiece, DayPiece, YearPiece, NamePiece, Concat, Pieces;
    LineIsText(e, Unix, longName);
  }

  /** From a Unix line one reads permissions, size and date; it ends with the long name if there is one. */
  lemma UnixLine(e: SearchData, longName: Option<string>)
    ensures var line := Concat(Pieces(e, Unix, longName)); var name := LastName(e, longName);
            exists w: nat :: UnixColumns(line, w, e) && line[45 + w..] == name + "\r\n"
  {
    hide Column, Decimal, Nat, Fill, Numeral, PermissionPiece, DayPiece, YearPiece, PermissionColumns, DayColumns;
    hide Concat, Pieces;
    var size := Fill(' ', Decimal(e.fileSize), 10);
    UnixText(e, longName);
    UnixWidths(e);
    UnixSlices(PermissionPiece(e), size, DayPiece(e), YearPiece(e), NamePiece(e, longName));
    assert UnixColumns(Concat(Pieces(e, Unix, longName)), |size|, e);
  }

  lemma UnixWidths(e: SearchData)
    ensures PermissionColumns(PermissionPiece(e), e.attribute) && |PermissionPiece(e)| == 15
    ensures DayColumns(DayPiece(e) + YearPiece(e), Nat(e.date)) && |DayPiece(e) + YearPiece(e)| == 13
    ensures var size := Fill(' ', Decimal(e.fileSize), 10);
            Column(size, ' ', e.fileSize) && |size| >= 10 && (|size| > 10 ==> Numeral(size))
  {
    hide Column, Decimal, Nat, Fill, PermissionPiece, DayPiece, YearPiece;
    PermissionsAreColumns(e);
    DayIsColumns(e);
    FillColumn(' ', e.fileSize, 10);
  }
}
