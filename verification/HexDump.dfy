/** The hex dump of base/AsyncLog.cpp. */
module HexDump {
  import opened Bytes
  import opened CStrings
  import opened Sequences
  import Decimal

  const PRINTSIZE := 512
  const SZBUF := 1544 // PRINTSIZE * 3 + 8
  const ROW := 32

  function HexDigit(n: nat): char
    requires n < 16
  {
    "0123456789abcdef"[n]
  }

  function Hex(b: byte): string {
    [HexDigit(b / 16), HexDigit(b % 16)]
  }

  function Zeros(n: nat): string {
    if n == 0 then "" else "0" + Zeros(n - 1)
  }

  /** sprintf with %06u: an int passed for an unsigned one. */
  function Padded(index: nat): string {
    var digits := Decimal.Digits(index % INT32_MODULUS);
    if |digits| < 6 then Zeros(6 - |digits|) + digits else digits
  }

  function Head(index: nat): string {
    Padded(index) + " "
  }

  /** What formLog writes in front of byte number `n` of a chunk whose first row has number `index`. */
  function Lead(head: nat -> string, index: nat, n: nat): string {
    RowStart(head, index, n) + Gap(n)
  }

  /** The start of a row in front of every thirty-two bytes. */
  function RowStart(head: nat -> string, index: nat, n: nat): string {
    if n % ROW == 0 then StartText(head, index + n / ROW, n == 0) else ""
  }

  function StartText(head: nat -> string, row: nat, first: bool): string {
    (if first then "" else "\n") + head(row)
  }

  /** The text of a chunk without its last newline, as it grows byte by byte. */
  function Partial(head: nat -> string, index: nat, bytes: seq<byte>): string {
    if bytes == [] then ""
    else
      var n := |bytes| - 1;
      Partial(head, index, bytes[..n]) + (Lead(head, index, n) + Hex(bytes[n]))
  }

  /** The dump row by row: the number of the row, and the bytes in groups of sixteen. */
  function Rows(head: nat -> string, index: nat, bytes: seq<byte>): string
    decreases |bytes|
  {
    if bytes == [] then ""
    else
      var n := if |bytes| < ROW then |bytes| else ROW;
      RowLine(head, index, bytes[..n]) + Rows(head, index + 1, bytes[n..])
  }

  function RowLine(head: nat -> string, index: nat, bytes: seq<byte>): string {
    head(index) + RowText(bytes) + "\n"
  }

  function RowText(bytes: seq<byte>): string {
    if bytes == [] then ""
    else
      var n := |bytes| - 1;
      RowText(bytes[..n]) + (Gap(n) + Hex(bytes[n]))
  }

  /** A space in front of every sixteen bytes. */
  function Gap(n: nat): string {
    if n % 16 == 0 then " " else ""
  }

  // ---------- Reading a dump ----------

  function HexValue(c: char): (v: nat)
    ensures v < 16
  {
    if '0' <= c <= '9' then (c - '0') as nat
    else if 'a' <= c <= 'f' then (c - 'a') as nat + 10
    else 0
  }

  /** Pairs of hex digits, spaces ignored. */
  function ParseHex(s: string): seq<byte> {
    if s == "" then []
    else if s[0] == ' ' then ParseHex(s[1..])
    else if |s| == 1 then []
    else [HexValue(s[0]) * 16 + HexValue(s[1])] + ParseHex(s[2..])
  }

  /** A line is a row number, a space, and hex digits. */
  function ParseLine(line: string): seq<byte> {
    var number := Until(line, ' ');
    ParseHex(line[|number|..])
  }

  function ParseRows(text: string): seq<byte>
    decreases |text|
  {
    if text == "" then []
    else
      var line := Until(text, '\n');
      ParseLine(line) + if |line| < |text| then ParseRows(text[|line| + 1..]) else []
  }

  /** Everything behind the title line. */
  function ParseDump(text: string): seq<byte> {
    var title := Until(text, '\n');
    if |title| < |text| then ParseRows(text[|title| + 1..]) else []
  }

  lemma {:induction false} ParseHexConcat(s: string, t: string)
    requires Paired(s)
    ensures ParseHex(s + t) == ParseHex(s) + ParseHex(t)
    ensures Paired(t) ==> Paired(s + t)
    decreases |s|
  {
    if s == "" {
      assert s + t == t;
    } else if s[0] == ' ' {
      assert (s + t)[1..] == s[1..] + t;
      ParseHexConcat(s[1..], t);
    } else {
      assert (s + t)[2..] == s[2..] + t;
      ParseHexConcat(s[2..], t);
    }
  }

  lemma DigitReadsBack(n: nat)
    requires n < 16
    ensures HexValue(HexDigit(n)) == n
    ensures HexDigit(n) != ' ' && HexDigit(n) != '\n' && HexDigit(n) != NUL
  {
  }

  lemma TwoDigits(a: char, b: char)
    requires a != ' '
    ensures ParseHex([a, b]) == [HexValue(a) * 16 + HexValue(b)] && Paired([a, b])
  {
    assert [a, b][2..] == [];
  }

  lemma HexPair(b: byte)
    ensures ParseHex(Hex(b)) == [b] && Paired(Hex(b)) && '\n' !in Hex(b) && NUL !in Hex(b)
  {
    DigitReadsBack(b / 16);
    DigitReadsBack(b % 16);
    TwoDigits(HexDigit(b / 16), HexDigit(b % 16));
  }

  lemma HexReadsBack(n: nat, b: byte)
    ensures ParseHex(Gap(n) + Hex(b)) == [b] && Paired(Gap(n) + Hex(b)) && '\n' !in Gap(n) + Hex(b)
  {
    HexPair(b);
    var h := Hex(b);
    assert (" " + h)[1..] == h && "" + h == h;
  }

  /** Where the digits of octet `i` of a row begin: one space stands in front of every sixteen octets. */
  function Column(i: nat): nat {
    2 * i + i / 16 + 1
  }

  lemma ColumnStep(n: nat)
    ensures Column(n + 1) == Column(n) + 2 + |Gap(n + 1)|
    ensures Column(n) >= 1 && (n % 16 == 0 <==> Gap(n) == " ")
  {
  }

  /** The digits stand at that place, behind a space if there is to be one. */
  predicate StandsAt(text: string, at: nat, digits: string, spaced: bool) {
    && 1 <= at && at + |digits| <= |text| && text[at..at + |digits|] == digits
    && (spaced ==> text[at - 1] == ' ')
  }

  lemma LastColumn(text: string, before: string, gap: string, digits: string, at: nat, spaced: bool)
    requires text == before + (gap + digits) && at == |before| + |gap| >= 1 && (spaced ==> gap == " ")
    ensures StandsAt(text, at, digits, spaced)
  {
  }

  lemma EarlierColumn(text: string, before: string, more: string, at: nat, digits: string, spaced: bool)
    requires text == before + more && StandsAt(before, at, digits, spaced)
    ensures StandsAt(text, at, digits, spaced)
  {
  }

  lemma {:induction false} RowWidth(bytes: seq<byte>)
    requires bytes != []
    ensures |RowText(bytes)| == Column(|bytes| - 1) + 2
    decreases |bytes|
  {
    var n := |bytes| - 1;
    ColumnStep(n);
    if n > 0 {
      RowWidth(bytes[..n]);
      ColumnStep(n - 1);
    }
  }

  /** The digits of every octet stand in its column, and a space in front of every sixteenth. */
  lemma {:induction false} RowLayout(bytes: seq<byte>, i: nat)
    requires i < |bytes|
    ensures StandsAt(RowText(bytes), Column(i), Hex(bytes[i]), i % 16 == 0)
    decreases |bytes|
  {
    var n := |bytes| - 1;
    if i < n {
      RowLayout(bytes[..n], i);
      EarlierInRow(bytes, i);
    } else {
      LastInRow(bytes);
    }
  }

  lemma EarlierInRow(bytes: seq<byte>, i: nat)
    requires i < |bytes| - 1
    requires StandsAt(RowText(bytes[..|bytes| - 1]), Column(i), Hex(bytes[..|bytes| - 1][i]), i % 16 == 0)
    ensures StandsAt(RowText(bytes), Column(i), Hex(bytes[i]), i % 16 == 0)
  {
    var n := |bytes| - 1;
    var spaced := i % 16 == 0;
    EarlierColumn(RowText(bytes), RowText(bytes[..n]), Gap(n) + Hex(bytes[n]), Column(i), Hex(bytes[..n][i]), spaced);
  }

  lemma LastInRow(bytes: seq<byte>)
    requires bytes != []
    ensures var n := |bytes| - 1; StandsAt(RowText(bytes), Column(n), Hex(bytes[n]), n % 16 == 0)
  {
    var n := |bytes| - 1;
    ColumnStep(n);
    BeforeLast(bytes);
    LastColumn(RowText(bytes), RowText(bytes[..n]), Gap(n), Hex(bytes[n]), Column(n), n % 16 == 0);
  }

  lemma BeforeLast(bytes: seq<byte>)
    requires bytes != []
    ensures var n := |bytes| - 1; |RowText(bytes[..n])| + |Gap(n)| == Column(n)
  {
    var n := |bytes| - 1;
    ColumnStep(n);
    if n > 0 {
      RowWidth(bytes[..n]);
      ColumnStep(n - 1);
    }
  }

  /** Spaces do not tear a pair of digits apart. */
  predicate Paired(s: string) {
    if s == "" then true
    else if s[0] == ' ' then Paired(s[1..])
    else |s| >= 2 && Paired(s[2..])
  }

  lemma {:induction false} RowReadsBack(bytes: seq<byte>)
    ensures ParseHex(RowText(bytes)) == bytes && Paired(RowText(bytes))
    ensures '\n' !in RowText(bytes)
    decreases |bytes|
  {
    if bytes != [] {
      var n := |bytes| - 1;
      RowReadsBack(bytes[..n]);
      HexReadsBack(n, bytes[n]);
      ParseHexConcat(RowText(bytes[..n]), Gap(n) + Hex(bytes[n]));
      TakeSnoc(bytes, n);
      assert bytes[..n + 1] == bytes;
    }
  }

  lemma {:induction false} ZerosAreZeros(n: nat)
    ensures |Zeros(n)| == n && forall c :: c in Zeros(n) ==> c == '0'
  {
    if n > 0 {
      ZerosAreZeros(n - 1);
    }
  }

  /** A row number and the space behind it. */
  predicate HeadFine(h: string) {
    7 <= |h| <= 11 && h[|h| - 1] == ' ' && ' ' !in h[..|h| - 1] && '\n' !in h && NUL !in h
  }

  ghost predicate HeadsFine(head: nat -> string) {
    forall row: nat :: HeadFine(head(row))
  }

  predicate AllDigits(s: string) {
    forall i :: 0 <= i < |s| ==> '0' <= s[i] <= '9'
  }

  lemma ZerosShape(n: nat)
    ensures |Zeros(n)| == n && AllDigits(Zeros(n))
  {
    ZerosAreZeros(n);
    assert forall i :: 0 <= i < n ==> Zeros(n)[i] in Zeros(n);
  }

  lemma DigitsShape(v: nat)
    requires v < INT32_MODULUS
    ensures |Decimal.Digits(v)| <= 10 && AllDigits(Decimal.Digits(v))
  {
    Decimal.DigitsAreDigits(v);
    Decimal.DigitCount(v, 10);
    assert Decimal.Pow10(5) == 100000;
    assert Decimal.Pow10(10) == 10000000000;
  }

  lemma PaddedShape(index: nat)
    ensures 6 <= |Padded(index)| <= 10 && AllDigits(Padded(index))
  {
    var v := index % INT32_MODULUS;
    DigitsShape(v);
    if |Decimal.Digits(v)| < 6 {
      ZerosShape(6 - |Decimal.Digits(v)|);
    }
  }

  /** The number in front of a row is the row's, modulo 2^32. */
  lemma RowNumberReadsBack(index: nat)
    ensures Decimal.Parse(Padded(index)) == index % INT32_MODULUS
  {
    var v := index % INT32_MODULUS;
    var digits := Decimal.Digits(v);
    Decimal.ParseDigits(v);
    if |digits| < 6 {
      ZerosAreZeros(6 - |digits|);
      var zeros := Zeros(6 - |digits|);
      assert forall i :: 0 <= i < |zeros| ==> zeros[i] in zeros;
      LeadingZeros(zeros, digits);
    }
  }

  lemma {:induction false} LeadingZeros(zeros: string, s: string)
    requires forall i :: 0 <= i < |zeros| ==> zeros[i] == '0'
    ensures Decimal.Parse(zeros + s) == Decimal.Parse(s)
    decreases |s|, |zeros|
  {
    var all := zeros + s;
    if s != "" {
      assert all[..|all| - 1] == zeros + s[..|s| - 1];
      LeadingZeros(zeros, s[..|s| - 1]);
    } else if zeros != "" {
      var fewer := zeros[..|zeros| - 1];
      assert all[..|all| - 1] == fewer + "" && all[|all| - 1] == '0';
      LeadingZeros(fewer, "");
    } else {
      assert all == s;
    }
  }

  lemma HeadShape(index: nat)
    ensures HeadFine(Head(index))
  {
    PaddedShape(index);
    var number := Padded(index);
    assert (number + " ")[..|number|] == number;
  }

  lemma HeadsAreFine()
    ensures HeadsFine(Head)
  {
    forall row: nat
      ensures HeadFine(Head(row))
    {
      HeadShape(row);
    }
  }

  lemma LineReadsBack(h: string, bytes: seq<byte>)
    requires HeadFine(h)
    ensures ParseLine(h + RowText(bytes)) == bytes && '\n' !in h + RowText(bytes)
  {
    RowReadsBack(bytes);
    BehindHead(h, RowText(bytes));
  }

  lemma BehindHead(h: string, row: string)
    requires HeadFine(h)
    ensures var line := h + row; line[|Until(line, ' ')|..] == [' '] + row && ([' '] + row)[1..] == row
  {
    var number := h[..|h| - 1];
    assert h + row == number + [' '] + row;
    UntilStops(number, ' ', row);
  }

  lemma {:induction false} RowsReadBack(head: nat -> string, index: nat, bytes: seq<byte>)
    requires HeadsFine(head)
    ensures ParseRows(Rows(head, index, bytes)) == bytes
    decreases |bytes|
  {
    if bytes != [] {
      var n := if |bytes| < ROW then |bytes| else ROW;
      var line, rest := head(index) + RowText(bytes[..n]), Rows(head, index + 1, bytes[n..]);
      LineReadsBack(head(index), bytes[..n]);
      FirstLine(line, rest);
      RowsReadBack(head, index + 1, bytes[n..]);
      Cut(bytes, n);
    }
  }

  lemma FirstLine(line: string, rest: string)
    requires '\n' !in line
    ensures ParseRows(line + "\n" + rest) == ParseLine(line) + ParseRows(rest)
  {
    UntilStops(line, '\n', rest);
    assert (line + "\n" + rest)[|line| + 1..] == rest;
  }

  lemma Cut(s: seq<byte>, n: nat)
    requires n <= |s|
    ensures s[..n] + s[n..] == s
  {
  }

  // ---------- One chunk is so many rows ----------

  lemma LeadInRow(head: nat -> string, index: nat, n: nat)
    requires n < ROW
    ensures Lead(head, index, n) == if n == 0 then head(index) + Gap(0) else Gap(n)
  {
    assert "" + head(index) == head(index) && "" + Gap(n) == Gap(n);
  }

  lemma OneRowOn(n: nat)
    ensures (ROW + n) / ROW == 1 + n / ROW && (ROW + n) % ROW == n % ROW
  {
  }

  lemma StartNext(head: nat -> string, row: nat, first: bool)
    ensures StartText(head, row, false) == (if first then "\n" else "") + StartText(head, row, first)
  {
    assert "" + head(row) == head(row) && "" + ("\n" + head(row)) == "\n" + head(row);
  }

  lemma RowStartNext(head: nat -> string, index: nat, n: nat)
    ensures RowStart(head, index, ROW + n) == (if n == 0 then "\n" else "") + RowStart(head, index + 1, n)
  {
    OneRowOn(n);
    if n % ROW == 0 {
      StartNext(head, index + 1 + n / ROW, n == 0);
    } else {
      assert n != 0 && "" + "" == "";
    }
  }

  lemma LeadNextRow(head: nat -> string, index: nat, n: nat)
    ensures Lead(head, index, ROW + n) == (if n == 0 then "\n" else "") + Lead(head, index + 1, n)
  {
    RowStartNext(head, index, n);
    assert Gap(ROW + n) == Gap(n);
    Associate(if n == 0 then "\n" else "", RowStart(head, index + 1, n), Gap(n));
  }

  lemma {:induction false} PartialOfRow(head: nat -> string, index: nat, bytes: seq<byte>)
    requires 1 <= |bytes| <= ROW
    ensures Partial(head, index, bytes) == head(index) + RowText(bytes)
    decreases |bytes|
  {
    var n := |bytes| - 1;
    var h := Hex(bytes[n]);
    LeadInRow(head, index, n);
    if n == 0 {
      assert bytes[..0] == [];
      assert "" + (Lead(head, index, 0) + h) == Lead(head, index, 0) + h && "" + (Gap(0) + h) == Gap(0) + h;
      Associate(head(index), Gap(0), h);
    } else {
      PartialOfRow(head, index, bytes[..n]);
      Associate(head(index), RowText(bytes[..n]), Gap(n) + h);
    }
  }

  lemma {:induction false} PartialSplit(head: nat -> string, index: nat, row: seq<byte>, rest: seq<byte>)
    requires |row| == ROW && rest != []
    ensures Partial(head, index, row + rest) == Partial(head, index, row) + "\n" + Partial(head, index + 1, rest)
    decreases |rest|
  {
    var n := |rest| - 1;
    var bytes, front := row + rest, row + rest[..n];
    assert bytes[|bytes| - 1] == rest[n] && bytes[..|bytes| - 1] == front;
    assert |bytes| - 1 == ROW + n;
    LeadNextRow(head, index, n);
    SplitStep(Partial(head, index, row), Partial(head, index + 1, rest[..n]), Lead(head, index + 1, n), Hex(rest[n]),
              n == 0);
    if n == 0 {
      assert front == row && rest[..0] == [];
    } else {
      PartialSplit(head, index, row, rest[..n]);
    }
  }

  lemma SplitStep(a: string, b: string, lead: string, h: string, first: bool)
    requires first ==> b == ""
    ensures (if first then a else a + "\n" + b) + ((if first then "\n" else "") + lead + h)
         == a + "\n" + (b + (lead + h))
  {
    if first {
      assert a + ("\n" + lead + h) == a + "\n" + ("" + (lead + h));
    } else {
      assert "" + lead == lead;
      Associate(a + "\n", b, lead + h);
    }
  }

  lemma {:induction false} PartialIsRows(head: nat -> string, index: nat, bytes: seq<byte>)
    requires bytes != []
    ensures Partial(head, index, bytes) + "\n" == Rows(head, index, bytes)
    decreases |bytes|
  {
    if |bytes| <= ROW {
      PartialOfRow(head, index, bytes);
      assert bytes[..|bytes|] == bytes && bytes[|bytes|..] == [];
      assert RowLine(head, index, bytes) + "" == RowLine(head, index, bytes);
    } else {
      var row, rest := bytes[..ROW], bytes[ROW..];
      assert bytes == row + rest;
      PartialSplit(head, index, row, rest);
      PartialOfRow(head, index, row);
      PartialIsRows(head, index + 1, rest);
      Associate(Partial(head, index, row) + "\n", Partial(head, index + 1, rest), "\n");
    }
  }

  lemma FullRow(head: nat -> string, index: nat, row: seq<byte>, rest: seq<byte>)
    requires |row| == ROW
    ensures Rows(head, index, row + rest) == RowLine(head, index, row) + Rows(head, index + 1, rest)
  {
    assert (row + rest)[..ROW] == row && (row + rest)[ROW..] == rest;
  }

  lemma RowInFront(head: nat -> string, index: nat, row: seq<byte>, rest: seq<byte>, more: seq<byte>, tail: string)
    requires |row| == ROW && Rows(head, index + 1, more) == Rows(head, index + 1, rest) + tail
    ensures Rows(head, index, row + more) == Rows(head, index, row + rest) + tail
  {
    FullRow(head, index, row, rest);
    FullRow(head, index, row, more);
    Associate(RowLine(head, index, row), Rows(head, index + 1, rest), tail);
  }

  lemma SplitRow(a: seq<byte>, b: seq<byte>)
    requires |a| >= ROW
    ensures a == a[..ROW] + a[ROW..] && a + b == a[..ROW] + (a[ROW..] + b)
  {
  }

  /** Cutting a buffer between rows cuts its dump there; `next` is the number of the first row behind the cut. */
  lemma {:induction false} RowsSplit(head: nat -> string, index: nat, a: seq<byte>, b: seq<byte>, next: nat)
    requires next >= index && |a| == ROW * (next - index)
    ensures Rows(head, index, a + b) == Rows(head, index, a) + Rows(head, next, b)
    decreases next - index
  {
    if next == index {
      assert a == [] && a + b == b && "" + Rows(head, index, b) == Rows(head, index, b);
    } else {
      RowsSplit(head, index + 1, a[ROW..], b, next);
      RowInFront(head, index, a[..ROW], a[ROW..], a[ROW..] + b, Rows(head, next, b));
      SplitRow(a, b);
    }
  }

  // ---------- The size of a chunk's text ----------

  /** Two digits a byte, a space for sixteen of them, and at most twelve chars to start a row. */
  function TextLimit(n: nat): nat {
    2 * n + (n + 15) / 16 + 12 * ((n + ROW - 1) / ROW)
  }

  lemma CeilStep(n: nat, d: nat)
    requires d == 16 || d == ROW
    ensures (n + 1 + d - 1) / d == (n + d - 1) / d + if n % d == 0 then 1 else 0
  {
  }

  lemma TextLimitStep(n: nat)
    ensures TextLimit(n + 1) == TextLimit(n) + 2 + (if n % 16 == 0 then 1 else 0) + (if n % ROW == 0 then 12 else 0)
  {
    CeilStep(n, 16);
    CeilStep(n, ROW);
  }

  lemma PartialSnoc(head: nat -> string, index: nat, front: seq<byte>, b: byte)
    ensures Partial(head, index, front + [b]) == Partial(head, index, front) + (Lead(head, index, |front|) + Hex(b))
  {
    var s, n := front + [b], |front|;
    assert |s| - 1 == n && s[n] == b && s[..n] == front;
  }

  lemma {:induction false} PartialSize(head: nat -> string, index: nat, bytes: seq<byte>)
    requires HeadsFine(head)
    ensures |Partial(head, index, bytes)| <= TextLimit(|bytes|)
    ensures NUL !in Partial(head, index, bytes)
    decreases |bytes|
  {
    if bytes != [] {
      var n := |bytes| - 1;
      var front := bytes[..n];
      PartialSize(head, index, front);
      LeadSize(head, index, n);
      TextLimitStep(n);
      HexPair(bytes[n]);
    }
  }

  lemma LeadSize(head: nat -> string, index: nat, n: nat)
    requires HeadsFine(head)
    ensures |Lead(head, index, n)| <= (if n % 16 == 0 then 1 else 0) + (if n % ROW == 0 then 12 else 0)
    ensures NUL !in Lead(head, index, n)
  {
    assert HeadFine(head(index + n / ROW));
  }

  // ---------- The methods ----------

  /** The buffer holds `text`, and zeros behind it. */
  predicate Holds(a: seq<char>, text: string) {
    |text| < |a| && a[..|text|] == text && forall i :: |text| <= i < |a| ==> a[i] == NUL
  }

  lemma HeldString(a: seq<char>, text: string)
    requires Holds(a, text) && NUL !in text
    ensures Terminated(a, 0) && CString(a, 0) == text
  {
    assert forall i :: 0 <= i < |text| ==> a[i] == text[i];
    CStringIs(a, 0, |text|);
    assert a[0..|text|] == text;
  }

  /** szbuf[len++] = c */
  method Put(szbuf: array<char>, len: nat, c: char, ghost text: string) returns (next: nat)
    requires Holds(szbuf[..], text) && len == |text| && len + 1 < szbuf.Length
    modifies szbuf
    ensures Holds(szbuf[..], text + [c]) && next == len + 1
  {
    szbuf[len] := c;
    next := len + 1;
  }

  /** strcat looks for the end of the text by itself; `len` has to agree with what it finds. */
  method StrCat(szbuf: array<char>, head: string, ghost text: string)
    requires Holds(szbuf[..], text) && NUL !in text && |text| + |head| < szbuf.Length
    modifies szbuf
    ensures Holds(szbuf[..], text + head)
  {
    HeldString(szbuf[..], text);
    var end := StrLen(szbuf, 0);
    for i := 0 to |head|
      invariant Holds(szbuf[..], text + head[..i])
    {
      szbuf[end + i] := head[i];
      assert text + head[..i + 1] == text + head[..i] + [head[i]];
    }
    assert head[..|head|] == head;
  }

  /** The start of a row: newline, number and space. */
  method StartRow(row: nat, szbuf: array<char>, len: nat, first: bool, ghost text: string) returns (next: nat)
    requires Holds(szbuf[..], text) && NUL !in text && len == |text| && len + 13 < szbuf.Length
    modifies szbuf
    ensures Holds(szbuf[..], text + StartText(Head, row, first))
    ensures next == len + |Head(row)| + if first then 0 else 1
  {
    HeadShape(row);
    next := len;
    ghost var before := text;
    if !first {
      next := Put(szbuf, next, '\n', text);
      before := text + "\n";
    }
    assert text + "" == text;
    var szhead := Padded(row) + " ";
    StrCat(szbuf, szhead, before);
    next := next + |szhead|;
    assert before + szhead == text + StartText(Head, row, first);
  }

  /** One byte: the space in front of a group, and two digits. */
  method PutByte(szbuf: array<char>, len: nat, n: nat, b: byte, ghost text: string) returns (next: nat)
    requires Holds(szbuf[..], text) && len == |text| && len + 4 < szbuf.Length
    modifies szbuf
    ensures Holds(szbuf[..], text + (Gap(n) + Hex(b))) && next == len + |Gap(n)| + 2
  {
    next := len;
    ghost var now := text;
    if n % 16 == 0 {
      next := Put(szbuf, next, ' ', now);
      now := now + " ";
    }
    assert text + "" == text;
    next := Put(szbuf, next, HexDigit(b / 16), now);
    now := now + [HexDigit(b / 16)];
    next := Put(szbuf, next, HexDigit(b % 16), now);
    assert now + [HexDigit(b % 16)] == text + (Gap(n) + Hex(b));
  }

  /** How many rows `n` bytes have begun. */
  function RowsIn(n: nat): nat {
    (n + ROW - 1) / ROW
  }

  lemma NextRow(n: nat)
    ensures RowsIn(n + 1) == RowsIn(n) + if n % ROW == 0 then 1 else 0
    ensures n % ROW == 0 ==> RowsIn(n) == n / ROW
  {
  }

  /** `row` is the number of the next row, and a row starts at every thirty-second byte. */
  lemma StartsRow(index: nat, row: nat, n: nat)
    requires row == index + RowsIn(n)
    ensures index + RowsIn(n + 1) == row + if n % ROW == 0 then 1 else 0
    ensures RowStart(Head, index, n) == if n % ROW == 0 then StartText(Head, row, n == 0) else ""
  {
    NextRow(n);
    if n % ROW == 0 {
      RowNumber(index, row, n);
    }
  }

  lemma RowNumber(index: nat, row: nat, n: nat)
    requires n % ROW == 0 && row == index + n / ROW
    ensures RowStart(Head, index, n) == StartText(Head, row, n == 0)
  {
  }

  lemma StartSize(row: nat, first: bool)
    ensures |StartText(Head, row, first)| == |Head(row)| + (if first then 0 else 1) <= 12
  {
    HeadShape(row);
  }

  method MaybeStartRow(index: nat, row: nat, szbuf: array<char>, len: nat, n: nat, ghost text: string)
    returns (next: nat, newRow: nat)
    requires Holds(szbuf[..], text) && NUL !in text && len == |text| && len + 13 < szbuf.Length
    requires row == index + RowsIn(n)
    modifies szbuf
    ensures newRow == index + RowsIn(n + 1)
    ensures Holds(szbuf[..], text + RowStart(Head, index, n)) && next == |text + RowStart(Head, index, n)| <= len + 12
  {
    StartsRow(index, row, n);
    StartSize(row, n == 0);
    next, newRow := len, row;
    if n % ROW == 0 {
      next := StartRow(row, szbuf, len, n == 0, text);
      newRow := row + 1;
    } else {
      assert text + "" == text;
    }
  }

  /** One turn of the loop; `text` is the text so far and `grown` the text afterwards. */
  method LogByte(index: nat, row: nat, szbuf: array<char>, len: nat, b: byte, n: nat, ghost done: seq<byte>,
                 ghost text: string)
    returns (next: nat, newRow: nat, ghost grown: string)
    requires szbuf.Length == SZBUF && n == |done| < PRINTSIZE && row == index + RowsIn(n)
    requires text == Partial(Head, index, done) && Holds(szbuf[..], text) && len == |text|
    modifies szbuf
    ensures grown == Partial(Head, index, done + [b]) && Holds(szbuf[..], grown) && next == |grown|
    ensures next + 20 < szbuf.Length && newRow == index + RowsIn(n + 1)
  {
    PartialRoom(index, done);
    PartialStep(index, done, b);
    PartialRoom(index, done + [b]);
    ghost var start := text + RowStart(Head, index, n);
    next, newRow := MaybeStartRow(index, row, szbuf, len, n, text);
    next := PutByte(szbuf, next, n, b, start);
    grown := start + (Gap(n) + Hex(b));
  }

  lemma PartialStep(index: nat, done: seq<byte>, b: byte)
    ensures var n := |done|;
            Partial(Head, index, done + [b])
              == Partial(Head, index, done) + RowStart(Head, index, n) + (Gap(n) + Hex(b))
  {
    PartialSnoc(Head, index, done, b);
    Associate(RowStart(Head, index, |done|), Gap(|done|), Hex(b));
    Associate(Partial(Head, index, done), RowStart(Head, index, |done|), Gap(|done|) + Hex(b));
  }

  /**
   * formLog on a zeroed buffer: the whole chunk is consumed, because the guard on the remaining room never
   * stops the loop, and `len` is always the length of the text.
   */
  method FormLog(index: nat, szbuf: array<char>, buffer: seq<byte>) returns (newIndex: nat)
    requires szbuf.Length == SZBUF && Holds(szbuf[..], "") && 1 <= |buffer| <= PRINTSIZE
    modifies szbuf
    ensures Holds(szbuf[..], Rows(Head, index, buffer)) && newIndex == index + RowsIn(|buffer|)
  {
    var len, lsize := 0, 0;
    ghost var done: seq<byte> := [];
    ghost var text := "";
    newIndex := index;
    while |buffer| > lsize && len + 10 < szbuf.Length
      invariant 0 <= lsize <= |buffer| && done == buffer[..lsize]
      invariant text == Partial(Head, index, done) && Holds(szbuf[..], text) && len == |text|
      invariant len + 20 < szbuf.Length && newIndex == index + RowsIn(lsize)
      decreases |buffer| - lsize
    {
      len, newIndex, text := LogByte(index, newIndex, szbuf, len, buffer[lsize], lsize, done, text);
      TakeSnoc(buffer, lsize);
      done := done + [buffer[lsize]];
      lsize := lsize + 1;
    }
    assert done == buffer;
    EndChunk(index, szbuf, len, buffer);
  }

  lemma PartialRoom(index: nat, bytes: seq<byte>)
    requires |bytes| <= PRINTSIZE
    ensures |Partial(Head, index, bytes)| + 20 < SZBUF && NUL !in Partial(Head, index, bytes)
  {
    HeadsAreFine();
    PartialSize(Head, index, bytes);
  }

  /** The last newline and the final zero. */
  method EndChunk(index: nat, szbuf: array<char>, len: nat, buffer: seq<byte>)
    requires buffer != [] && len + 20 < szbuf.Length
    requires Holds(szbuf[..], Partial(Head, index, buffer)) && len == |Partial(Head, index, buffer)|
    modifies szbuf
    ensures Holds(szbuf[..], Rows(Head, index, buffer))
  {
    var end := Put(szbuf, len, '\n', Partial(Head, index, buffer));
    szbuf[end] := NUL;
    PartialIsRows(Head, index, buffer);
  }

  /** One chunk of the dump, put together in a zeroed local array. */
  method DumpChunk(index: nat, szbuf: array<char>, chunk: seq<byte>) returns (dump: string, next: nat)
    requires szbuf.Length == SZBUF && 1 <= |chunk| <= PRINTSIZE
    modifies szbuf
    ensures dump == Rows(Head, index, chunk) && next == index + RowsIn(|chunk|)
  {
    forall i | 0 <= i < szbuf.Length {
      szbuf[i] := NUL;
    }
    next := FormLog(index, szbuf, chunk);
    RowsPlain(index, chunk);
    HeldString(szbuf[..], Rows(Head, index, chunk));
    dump := ToString(szbuf, 0);
  }

  lemma ChunkAppended(head: nat -> string, title: string, done: seq<byte>, chunk: seq<byte>, index: nat)
    requires |done| == ROW * index
    ensures title + Rows(head, 0, done + chunk) == title + Rows(head, 0, done) + Rows(head, index, chunk)
    ensures |chunk| == PRINTSIZE ==> |done + chunk| == ROW * (index + RowsIn(|chunk|))
  {
    RowsSplit(head, 0, done, chunk, index);
    Associate(title, Rows(head, 0, done), Rows(head, index, chunk));
    if |chunk| == PRINTSIZE {
      FullChunk(index);
    }
  }

  lemma FullChunk(index: nat)
    ensures ROW * (index + RowsIn(PRINTSIZE)) == ROW * index + PRINTSIZE
  {
    assert RowsIn(PRINTSIZE) == 16;
  }

  lemma Slices(buffer: seq<byte>, i: nat, j: nat)
    requires i <= j <= |buffer|
    ensures buffer[..j] == buffer[..i] + buffer[i..j]
  {
  }

  /** The dump of a buffer at an address, in chunks of 512 bytes. */
  method OutputBinary(address: nat, buffer: seq<byte>) returns (text: string)
    ensures text == Title(address, |buffer|) + Rows(Head, 0, buffer)
  {
    ghost var title := Title(address, |buffer|);
    text := Title(address, |buffer|);
    assert text + "" == text;
    var lsize, index := 0, 0;
    var szbuf := new char[SZBUF];
    ghost var done: seq<byte> := [];
    while |buffer| > lsize
      invariant 0 <= lsize <= |buffer| && done == buffer[..lsize]
      invariant lsize < |buffer| ==> |done| == ROW * index
      invariant text == title + Rows(Head, 0, done)
      decreases |buffer| - lsize
    {
      var size := if |buffer| - lsize > PRINTSIZE then PRINTSIZE else |buffer| - lsize;
      var chunk := buffer[lsize..lsize + size];
      Slices(buffer, lsize, lsize + size);
      var dump, next := DumpChunk(index, szbuf, chunk);
      ChunkAppended(Head, title, done, chunk, index);
      done := done + chunk;
      text := text + dump;
      lsize := lsize + size;
      index := next;
    }
    assert done == buffer;
  }

  /** The title line. */
  function Title(address: nat, size: nat): string {
    "address[" + Decimal.Digits(address) + "] size[" + Decimal.Digits(size) + "] \n"
  }

  lemma RowsPlain(index: nat, bytes: seq<byte>)
    requires bytes != []
    ensures NUL !in Rows(Head, index, bytes)
  {
    HeadsAreFine();
    PartialSize(Head, index, bytes);
    PartialIsRows(Head, index, bytes);
  }

  lemma TitleShape(address: nat, size: nat) returns (line: string)
    ensures '\n' !in line && Title(address, size) == line + ['\n']
  {
    Decimal.DigitsAreDigits(address);
    Decimal.DigitsAreDigits(size);
    line := "address[" + Decimal.Digits(address) + "] size[" + Decimal.Digits(size) + "] ";
  }

  /** What stands between the first pair of brackets. */
  function Bracketed(text: string): string {
    var front := Until(text, '[');
    if |front| < |text| then Until(text[|front| + 1..], ']') else ""
  }

  function BehindBracket(text: string): string {
    var front := Until(text, ']');
    if |front| < |text| then text[|front| + 1..] else ""
  }

  lemma BracketReadsBack(name: string, n: nat, rest: string)
    requires '[' !in name && ']' !in name
    ensures var text := name + "[" + Decimal.Digits(n) + "]" + rest;
            && Until(text, '[') == name && Decimal.Parse(Bracketed(text)) == n && BehindBracket(text) == rest
  {
    var digits := Decimal.Digits(n);
    var text := name + "[" + digits + "]" + rest;
    Decimal.DigitsAreDigits(n);
    Decimal.ParseDigits(n);
    assert text == name + "[" + (digits + "]" + rest) && text[|name| + 1..] == digits + "]" + rest;
    UntilStops(name, '[', digits + "]" + rest);
    UntilStops(digits, ']', rest);
    var front := name + "[" + digits;
    assert text == front + "]" + rest && text[|front| + 1..] == rest;
    UntilStops(front, ']', rest);
  }

  lemma Regroup(first: string, a: string, second: string, b: string, last: string, rest: string)
    ensures first + "[" + a + ("]" + second + "[") + b + ("]" + last) + rest
         == first + "[" + a + "]" + (second + "[" + b + "]" + (last + rest))
  {
    var behind := second + "[" + b + "]" + (last + rest);
    assert behind == second + "[" + b + "]" + last + rest;
    assert first + "[" + a + ("]" + second + "[") + b + ("]" + last) + rest == first + "[" + a + "]" + behind;
  }

  lemma TitleParts(address: nat, size: nat, rows: string)
    ensures Title(address, size) + rows
         == "address" + "[" + Decimal.Digits(address) + "]"
            + (" size" + "[" + Decimal.Digits(size) + "]" + (" \n" + rows))
  {
    var a, b := Decimal.Digits(address), Decimal.Digits(size);
    Regroup("address", a, " size", b, " \n", rows);
    assert "address" + "[" == "address[" && "]" + " size" + "[" == "] size[" && "]" + " \n" == "] \n";
  }

  /** In front of any rows the title reads back to the address and the size. */
  lemma TitleReadsBack(address: nat, size: nat, rows: string)
    ensures var text := Title(address, size) + rows;
            && Until(text, '[') == "address" && Decimal.Parse(Bracketed(text)) == address
            && Until(BehindBracket(text), '[') == " size" && Decimal.Parse(Bracketed(BehindBracket(text))) == size
            && BehindBracket(BehindBracket(text)) == " \n" + rows
  {
    TitleParts(address, size, rows);
    BracketReadsBack("address", address, " size" + "[" + Decimal.Digits(size) + "]" + (" \n" + rows));
    BracketReadsBack(" size", size, " \n" + rows);
  }

  /** Any buffer of any size: the text that is logged parses back to exactly its bytes. */
  lemma DumpReadsBack(address: nat, buffer: seq<byte>)
    ensures ParseDump(Title(address, |buffer|) + Rows(Head, 0, buffer)) == buffer
  {
    var rows := Rows(Head, 0, buffer);
    var line := TitleShape(address, |buffer|);
    UntilStops(line, '\n', rows);
    assert (line + ['\n'] + rows)[|line| + 1..] == rows;
    HeadsAreFine();
    RowsReadBack(Head, 0, buffer);
  }
}
