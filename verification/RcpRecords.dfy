/** The control lines of the rcp protocol (bsd/krcp.c): how `source` and `rsource`
    print them and how `sink` parses them.  An octet is modelled by a `char`. */
module RcpRecords {
  import opened Wrappers

  const RCP_BUFSIZ: nat := 4096

  const ACK := "\0"
  const ERROR_MARK: char := '\U{1}'
  const FATAL_MARK: char := '\U{2}'

  /** Seconds and microseconds of the modification and the access time. */
  datatype Times = Times(mtime: int, mtimeUsec: int, atime: int, atimeUsec: int)

  /** What `sink` makes of one line of control input. */
  datatype Command =
    | Complaint(text: string, fatal: bool)
    | SetTimes(times: Times)
    | StoreFile(mode: bv12, size: nat, name: string)
    | EnterDirectory(mode: bv12, name: string)
    | LeaveDirectory
    | Foreign(text: string)
    | Screwup(reason: string)

  // ---------- printing ----------

  function Digit(d: nat): char
    requires d < 10
  {
    (d + '0' as int) as char
  }

  function Decimal(n: nat): (s: string)
    ensures |s| > 0
  {
    if n < 10 then [Digit(n)] else Decimal(n / 10) + [Digit(n % 10)]
  }

  function OctalDigit(d: bv12): char
    requires d < 8
  {
    if d == 0 then '0' else if d == 1 then '1' else if d == 2 then '2' else if d == 3 then '3'
    else if d == 4 then '4' else if d == 5 then '5' else if d == 6 then '6' else '7'
  }

  /** The format "%04o" of a value below 010000. */
  function Octal(mode: bv12): (s: string)
    ensures |s| == 4
  {
    [OctalDigit((mode >> 9) & 7), OctalDigit((mode >> 6) & 7), OctalDigit((mode >> 3) & 7), OctalDigit(mode & 7)]
  }

  /** The format "%ld". */
  function Signed(n: int): string {
    if n < 0 then "-" + Decimal(-n) else Decimal(n)
  }

  function TimesLine(mtime: int, atime: int): string {
    "T" + Signed(mtime) + " 0 " + Signed(atime) + " 0"
  }

  function FileLine(mode: bv12, size: nat, name: string): string {
    "C" + Octal(mode) + " " + Decimal(size) + " " + name
  }

  function DirectoryLine(mode: bv12, name: string): string {
    "D" + Octal(mode) + " 0 " + name
  }

  /** What `snprintf` leaves in a buffer of RCP_BUFSIZ characters. */
  function Printed(s: string): (r: string)
    ensures |s| < RCP_BUFSIZ ==> r == s
    ensures |r| < RCP_BUFSIZ && r <= s
  {
    if |s| < RCP_BUFSIZ then s else s[..RCP_BUFSIZ - 1]
  }

  /** The message `error` writes to the wire: the mark, then the text cut to the rest of its buffer. */
  function ErrorMessage(path: string, why: string): string {
    [ERROR_MARK] + Clipped("rcp: " + path + ": " + why + "\n")
  }

  function Clipped(s: string): (r: string)
    ensures |s| <= RCP_BUFSIZ - 2 ==> r == s
    ensures r <= s && (|s| > RCP_BUFSIZ - 2 ==> |r| == RCP_BUFSIZ - 2)
  {
    if |s| <= RCP_BUFSIZ - 2 then s else s[..RCP_BUFSIZ - 2]
  }

  // ---------- parsing ----------

  /** The character a C string shows at position `i`; a string ends with NUL. */
  function At(s: string, i: nat): char {
    if i < |s| then s[i] else '\0'
  }

  /** The C string that starts at position `i`. */
  function CString(s: string, i: nat): (r: string)
    ensures '\0' !in r
    decreases |s| - i
  {
    if At(s, i) == '\0' then [] else [s[i]] + CString(s, i + 1)
  }

  predicate IsDigit(c: char) { '0' <= c <= '9' }

  function DigitValue(c: char): nat
    requires IsDigit(c)
  {
    c as int - '0' as int
  }

  /** The value and the end of the run of digits that starts at `i`, after `acc` has been read. */
  function Number(s: string, i: nat, acc: nat): (nat, nat)
    decreases |s| - i
  {
    if IsDigit(At(s, i)) then Number(s, i + 1, acc * 10 + DigitValue(s[i])) else (acc, i)
  }

  predicate IsOctalDigit(c: char) { '0' <= c <= '7' }

  function OctalValue(c: char): bv12
    requires IsOctalDigit(c)
  {
    if c == '0' then 0 else if c == '1' then 1 else if c == '2' then 2 else if c == '3' then 3
    else if c == '4' then 4 else if c == '5' then 5 else if c == '6' then 6 else 7
  }

  /** The mode in positions `i` to 4 of a header line, shifted into `acc`; None if a character is no octal digit. */
  function ModeField(s: string, i: nat, acc: bv12): Option<bv12>
    decreases 5 - i
  {
    if i >= 5 then Some(acc)
    else if IsOctalDigit(At(s, i)) then ModeField(s, i + 1, (acc << 3) | OctalValue(At(s, i)))
    else None
  }

  function ParseTimes(s: string): Command {
    var (mtime, p1) := Number(s, 1, 0);
    if At(s, p1) != ' ' then Screwup("mtime.sec not delimited") else
    var (mtimeUsec, p2) := Number(s, p1 + 1, 0);
    if At(s, p2) != ' ' then Screwup("mtime.usec not delimited") else
    var (atime, p3) := Number(s, p2 + 1, 0);
    if At(s, p3) != ' ' then Screwup("atime.sec not delimited") else
    var (atimeUsec, p4) := Number(s, p3 + 1, 0);
    if At(s, p4) != '\0' then Screwup("atime.usec not delimited") else
    SetTimes(Times(mtime, mtimeUsec, atime, atimeUsec))
  }

  function ParseHeader(s: string): Command
    requires |s| > 0
  {
    match ModeField(s, 1, 0)
    case None => Screwup("bad mode")
    case Some(mode) =>
      if At(s, 5) != ' ' then Screwup("mode not delimited") else
      var (size, p) := Number(s, 6, 0);
      if At(s, p) != ' ' then Screwup("size not delimited") else
      var name := CString(s, p + 1);
      if s[0] == 'D' then EnterDirectory(mode, name) else StoreFile(mode, size, name)
  }

  /** The meaning of a line without its newline; `first` tells whether it is the first one `sink` reads. */
  function Parse(s: string, first: bool): Command {
    if s == "" then Screwup("unexpected '\\n'")
    else if s[0] == ERROR_MARK || s[0] == FATAL_MARK then Complaint(CString(s + "\n", 1), s[0] == FATAL_MARK)
    else if s[0] == 'E' then LeaveDirectory
    else if s[0] == 'T' then ParseTimes(s)
    else if s[0] == 'C' || s[0] == 'D' then ParseHeader(s)
    else if first then Foreign(CString(s, 0))
    else Screwup("expected control record")
  }

  // ---------- the parsing loops ----------

  /** The `getnum` loop: digits from position `start` on. */
  method GetNum(s: string, start: nat) returns (t: nat, cp: nat)
    ensures (t, cp) == Number(s, start, 0)
  {
    t, cp := 0, start;
    while IsDigit(At(s, cp))
      invariant Number(s, cp, t) == Number(s, start, 0)
      decreases |s| - cp
    {
      t := t * 10 + DigitValue(s[cp]);
      cp := cp + 1;
    }
  }

  method GetMode(s: string) returns (ok: bool, mode: bv12)
    ensures ModeField(s, 1, 0) == if ok then Some(mode) else None
  {
    mode := 0;
    var cp := 1;
    while cp < 5
      invariant 1 <= cp <= 5
      invariant ModeField(s, cp, mode) == ModeField(s, 1, 0)
    {
      if At(s, cp) < '0' || At(s, cp) > '7' {
        return false, mode;
      }
      mode := (mode << 3) | OctalValue(At(s, cp));
      cp := cp + 1;
    }
    ok := true;
  }

  /** What becomes of one line, up to the point where `sink` acts on it. */
  method ParseLine(s: string, first: bool) returns (c: Command)
    ensures c == Parse(s, first)
  {
    if s == "" {
      return Screwup("unexpected '\\n'");
    }
    if s[0] == ERROR_MARK || s[0] == FATAL_MARK {
      return Complaint(CString(s + "\n", 1), s[0] == FATAL_MARK);
    }
    if s[0] == 'E' {
      return LeaveDirectory;
    }
    var cp: nat;
    if s[0] == 'T' {
      var mtime, mtimeUsec, atime, atimeUsec;
      mtime, cp := GetNum(s, 1);
      if At(s, cp) != ' ' {
        return Screwup("mtime.sec not delimited");
      }
      mtimeUsec, cp := GetNum(s, cp + 1);
      if At(s, cp) != ' ' {
        return Screwup("mtime.usec not delimited");
      }
      atime, cp := GetNum(s, cp + 1);
      if At(s, cp) != ' ' {
        return Screwup("atime.sec not delimited");
      }
      atimeUsec, cp := GetNum(s, cp + 1);
      if At(s, cp) != '\0' {
        return Screwup("atime.usec not delimited");
      }
      return SetTimes(Times(mtime, mtimeUsec, atime, atimeUsec));
    }
    if s[0] != 'C' && s[0] != 'D' {
      return if first then Foreign(CString(s, 0)) else Screwup("expected control record");
    }
    var ok, mode := GetMode(s);
    if !ok {
      return Screwup("bad mode");
    }
    if At(s, 5) != ' ' {
      return Screwup("mode not delimited");
    }
    var size;
    size, cp := GetNum(s, 6);
    if At(s, cp) != ' ' {
      return Screwup("size not delimited");
    }
    var name := CString(s, cp + 1);
    return if s[0] == 'D' then EnterDirectory(mode, name) else StoreFile(mode, size, name);
  }

  /** One round of the command loop of `sink`: octets are read up to a newline, the first of them by itself.
      None if the input is over before the line begins, which is where `sink` returns; an input that is over
      inside the line is a screwup. */
  method ReadCommand(input: string, first: bool) returns (c: Option<Command>, used: nat)
    ensures used <= |input|
    ensures input == "" <==> c == None
    ensures '\n' !in input ==> used == |input| && (c.Some? ==> c.value == Screwup("lost connection"))
    ensures '\n' in input ==>
      && used > 0 && input[used - 1] == '\n' && '\n' !in input[..used - 1]
      && c == Some(Parse(input[..used - 1], first))
  {
    if input == "" {
      return None, 0;
    }
    var cmdbuf := [input[0]];
    used := 1;
    while cmdbuf[used - 1] != '\n'
      invariant 1 <= used <= |input| && cmdbuf == input[..used] && '\n' !in input[..used - 1]
      decreases |input| - used
    {
      if used == |input| {
        return Some(Screwup("lost connection")), used;
      }
      cmdbuf := cmdbuf + [input[used]];
      used := used + 1;
    }
    assert cmdbuf[..used - 1] == input[..used - 1];
    var command := ParseLine(cmdbuf[..used - 1], first);
    c := Some(command);
  }

  /** A line that is whole is never taken for one that was cut off. */
  lemma WholeIsNotCut(s: string, first: bool)
    ensures Parse(s, first) != Screwup("lost connection")
  {
    hide Number, ModeField, CString;
    assert |"lost connection"| == 15 && "lost connection"[0] == 'l';
  }

  // ---------- what is printed is what is parsed ----------

  predicate NoControl(s: string) { '\n' !in s && '\0' !in s }

  lemma {:induction false} DecimalDigits(n: nat)
    ensures forall i :: 0 <= i < |Decimal(n)| ==> IsDigit(Decimal(n)[i])
    ensures NoControl(Decimal(n))
  {
    if n >= 10 {
      DecimalDigits(n / 10);
    }
  }

  /** Reading past a printed number multiplies what came before by its power of ten. */
  function Scaled(acc: nat, n: nat): nat {
    if n < 10 then acc * 10 + n else Scaled(acc, n / 10) * 10 + n % 10
  }

  lemma {:induction false} ScaledZero(n: nat)
    ensures Scaled(0, n) == n
  {
    if n >= 10 {
      ScaledZero(n / 10);
    }
  }

  lemma {:induction false} NumberAfterDecimal(pre: string, n: nat, post: string, acc: nat)
    ensures Number(pre + Decimal(n) + post, |pre|, acc)
         == Number(pre + Decimal(n) + post, |pre| + |Decimal(n)|, Scaled(acc, n))
    decreases n
  {
    hide Number, Decimal, Scaled, Digit;
    var s := pre + Decimal(n) + post;
    LastDigit(acc, n);
    if n < 10 {
      assert s[|pre|] == Digit(n);
      NumberStep(s, |pre|, acc, n);
    } else {
      var high, last := Decimal(n / 10), [Digit(n % 10)];
      assert s == pre + high + (last + post) && s[|pre| + |high|] == last[0];
      NumberAfterDecimal(pre, n / 10, last + post, acc);
      NumberStep(s, |pre| + |high|, Scaled(acc, n / 10), n % 10);
    }
  }

  lemma LastDigit(acc: nat, n: nat)
    ensures n < 10 ==> Decimal(n) == [Digit(n)] && Scaled(acc, n) == acc * 10 + n
    ensures n >= 10 ==>
              && Decimal(n) == Decimal(n / 10) + [Digit(n % 10)]
              && Scaled(acc, n) == Scaled(acc, n / 10) * 10 + n % 10
  {
  }

  lemma NumberStep(s: string, i: nat, acc: nat, d: nat)
    requires i < |s| && d < 10 && s[i] == Digit(d)
    ensures Number(s, i, acc) == Number(s, i + 1, acc * 10 + d)
  {
  }

  lemma NumberOfDecimal(pre: string, n: nat, post: string)
    requires post == "" || !IsDigit(post[0])
    ensures Number(pre + Decimal(n) + post, |pre|, 0) == (n, |pre| + |Decimal(n)|)
  {
    hide Number, Decimal, Scaled;
    NumberAfterDecimal(pre, n, post, 0);
    ScaledZero(n);
    NumberStops(pre + Decimal(n), post, n);
  }

  lemma NumberStops(pre: string, post: string, acc: nat)
    requires post == "" || !IsDigit(post[0])
    ensures Number(pre + post, |pre|, acc) == (acc, |pre|)
  {
    assert post != "" ==> (pre + post)[|pre|] == post[0];
  }

  lemma OctalDigitValue(d: bv12)
    requires d < 8
    ensures IsOctalDigit(OctalDigit(d)) && OctalValue(OctalDigit(d)) == d
  {
  }

  lemma ModeFieldOfOctal(s: string, mode: bv12)
    requires |s| >= 5 && s[1..5] == Octal(mode)
    ensures ModeField(s, 1, 0) == Some(mode)
  {
    TopDigits(mode);
    var o := Octal(mode);
    assert s[1] == o[0] && s[2] == o[1] && s[3] == o[2] && s[4] == o[3];
    ModeChain(s, (mode >> 9) & 7, (mode >> 6) & 7, (mode >> 3) & 7, mode & 7, mode >> 9, mode >> 6, mode >> 3, mode);
  }

  lemma ModeChain(s: string, d1: bv12, d2: bv12, d3: bv12, d4: bv12, m1: bv12, m2: bv12, m3: bv12, m4: bv12)
    requires d1 < 8 && d2 < 8 && d3 < 8 && d4 < 8 && |s| >= 5
    requires s[1] == OctalDigit(d1) && s[2] == OctalDigit(d2) && s[3] == OctalDigit(d3) && s[4] == OctalDigit(d4)
    requires m1 == (0 << 3) | d1 && m2 == (m1 << 3) | d2 && m3 == (m2 << 3) | d3 && m4 == (m3 << 3) | d4
    ensures ModeField(s, 1, 0) == Some(m4)
  {
    assert ModeField(s, 5, m4) == Some(m4);
    assert ModeField(s, 3, m2) == Some(m4) by {
      ModeStep(s, 3, m2, d3, m3);
      ModeStep(s, 4, m3, d4, m4);
    }
    ModeStep(s, 1, 0, d1, m1);
    ModeStep(s, 2, m1, d2, m2);
  }

  lemma TopDigits(m: bv12)
    ensures m >> 9 == (0 << 3) | ((m >> 9) & 7)
    ensures m >> 6 == ((m >> 9) << 3) | ((m >> 6) & 7)
    ensures m >> 3 == ((m >> 6) << 3) | ((m >> 3) & 7)
    ensures m == ((m >> 3) << 3) | (m & 7)
    ensures (m >> 9) & 7 < 8 && (m >> 6) & 7 < 8 && (m >> 3) & 7 < 8 && m & 7 < 8
  {
  }

  lemma ModeStep(s: string, i: nat, acc: bv12, d: bv12, acc': bv12)
    requires 1 <= i < 5 <= |s| && d < 8 && s[i] == OctalDigit(d)
    requires acc' == (acc << 3) | d
    ensures ModeField(s, i, acc) == ModeField(s, i + 1, acc')
  {
    OctalDigitValue(d);
  }

  lemma {:induction false} CStringOfSuffix(pre: string, s: string)
    requires '\0' !in s
    ensures CString(pre + s, |pre|) == s
    decreases |s|
  {
    if s == "" {
      assert At(pre + s, |pre|) == '\0';
    } else {
      assert pre + s == (pre + [s[0]]) + s[1..];
      assert (pre + s)[|pre|] == s[0];
      CStringOfSuffix(pre + [s[0]], s[1..]);
    }
  }

  lemma DecimalZero()
    ensures Decimal(0) == "0"
  {
  }

  /** A sign is no digit: a number printed with one is not read at all. */
  lemma NumberOfSigned(pre: string, n: int, post: string)
    requires post != "" && !IsDigit(post[0])
    ensures var s := pre + Signed(n) + post;
      && |pre| < |s|
      && (n >= 0 ==> Number(s, |pre|, 0) == (n, |pre| + |Signed(n)|) && s[|pre| + |Signed(n)|..] == post)
      && (n < 0 ==> Number(s, |pre|, 0) == (0, |pre|) && s[|pre|] == '-')
  {
    hide Number, Decimal;
    var s := pre + Signed(n) + post;
    if n >= 0 {
      NumberOfDecimal(pre, n, post);
    } else {
      assert s == pre + ("-" + Decimal(-n) + post);
      assert s[|pre|] == '-';
      NumberStops(pre, "-" + Decimal(-n) + post, 0);
    }
  }

  lemma SignedIsPlain(n: int)
    ensures NoControl(Signed(n))
  {
    DecimalDigits(if n < 0 then -n else n);
  }

  /** The T record is parsed as the times it was printed from if and only if none of them is before 1970;
      otherwise the first one that is gives the reason for the screwup. */
  lemma TimesLineParses(mtime: int, atime: int, first: bool)
    ensures Parse(TimesLine(mtime, atime), first) ==
      if mtime < 0 then Screwup("mtime.sec not delimited")
      else if atime < 0 then Screwup("atime.sec not delimited")
      else SetTimes(Times(mtime, 0, atime, 0))
    ensures NoControl(TimesLine(mtime, atime))
  {
    hide Number, Decimal, Signed, ParseTimes;
    TimesLinePlain(mtime, atime);
    var m, a, s := Signed(mtime), Signed(atime), TimesLine(mtime, atime);
    TimesText(m, a);
    assert s[0] == 'T';
    NumberOfSigned("T", mtime, " 0 " + a + " 0");
    if mtime < 0 {
      NoNumberOf(s);
    } else {
      DecimalZero();
      NumberOfDecimal("T" + m + " ", 0, " " + a + " 0");
      NumberOfSigned("T" + m + " 0 ", atime, " 0");
      if atime >= 0 {
        NumberOfDecimal("T" + m + " 0 " + a + " ", 0, "");
      }
      TimesOf(s, mtime, |m|, atime, |a|);
    }
  }

  lemma TimesLinePlain(mtime: int, atime: int)
    ensures NoControl(TimesLine(mtime, atime))
  {
    hide Signed;
    SignedIsPlain(mtime);
    SignedIsPlain(atime);
  }

  /** The places from which the four numbers are read. */
  lemma TimesText(m: string, a: string)
    ensures var s := "T" + m + " 0 " + a + " 0";
            && s == "T" + m + (" 0 " + a + " 0")
            && s == ("T" + m + " ") + "0" + (" " + a + " 0")
            && s == ("T" + m + " 0 ") + a + " 0"
            && s == ("T" + m + " 0 " + a + " ") + "0" + ""
  {
    var s := "T" + m + " 0 " + a + " 0";
    assert s == "T" + m + (" 0 " + a + " 0");
    assert s == ("T" + m + " ") + "0" + (" " + a + " 0");
    assert s == ("T" + m + " 0 " + a + " ") + "0" + "";
  }

  lemma NoNumberOf(s: string)
    requires |s| > 1 && Number(s, 1, 0) == (0, 1) && s[1] == '-'
    ensures ParseTimes(s) == Screwup("mtime.sec not delimited")
  {
    hide Number;
  }

  lemma TimesOf(s: string, mtime: nat, m: nat, atime: int, a: nat)
    requires |s| == m + a + 6 && Number(s, 1, 0) == (mtime, m + 1) && s[m + 1] == ' '
    requires Number(s, m + 2, 0) == (0, m + 3) && s[m + 3] == ' '
    requires atime < 0 ==> Number(s, m + 4, 0) == (0, m + 4) && s[m + 4] == '-'
    requires atime >= 0 ==> Number(s, m + 4, 0) == (atime, m + a + 4) && s[m + a + 4] == ' '
    requires atime >= 0 ==> Number(s, m + a + 5, 0) == (0, m + a + 6)
    ensures ParseTimes(s) ==
            if atime < 0 then Screwup("atime.sec not delimited") else SetTimes(Times(mtime, 0, atime, 0))
  {
    hide Number;
  }

  lemma HeaderParses(letter: char, mode: bv12, size: nat, name: string, first: bool)
    requires letter == 'C' || letter == 'D'
    requires NoControl(name)
    ensures var s := [letter] + Octal(mode) + " " + Decimal(size) + " " + name;
            && NoControl(s)
            && Parse(s, first) == if letter == 'D' then EnterDirectory(mode, name) else StoreFile(mode, size, name)
  {
    hide Number, Decimal, Octal, CString, ParseHeader;
    var o, d := Octal(mode), Decimal(size);
    var s := [letter] + o + " " + d + " " + name;
    OctalIsPlain(mode);
    DecimalDigits(size);
    HeaderText(letter, o, d, name);
    assert s[1..5] == o;
    ModeFieldOfOctal(s, mode);
    NumberOfDecimal([letter] + o + " ", size, " " + name);
    CStringOfSuffix([letter] + o + " " + d + " ", name);
    HeaderOf(s, mode, size, |d|);
  }

  lemma OctalIsPlain(mode: bv12)
    ensures NoControl(Octal(mode))
  {
  }

  lemma HeaderText(letter: char, o: string, d: string, name: string)
    ensures var s := [letter] + o + " " + d + " " + name;
            && s == ([letter] + o + " ") + d + (" " + name)
            && s == ([letter] + o + " " + d + " ") + name
  {
    var s := [letter] + o + " " + d + " " + name;
    assert s == ([letter] + o + " ") + d + (" " + name);
  }

  lemma HeaderOf(s: string, mode: bv12, size: nat, d: nat)
    requires |s| > 6 + d && ModeField(s, 1, 0) == Some(mode) && s[5] == ' '
    requires Number(s, 6, 0) == (size, 6 + d) && s[6 + d] == ' '
    ensures ParseHeader(s) == var name := CString(s, 7 + d);
                              if s[0] == 'D' then EnterDirectory(mode, name) else StoreFile(mode, size, name)
  {
    hide ModeField, Number, CString;
  }

  lemma FileLineParses(mode: bv12, size: nat, name: string, first: bool)
    requires NoControl(name)
    ensures Parse(FileLine(mode, size, name), first) == StoreFile(mode, size, name)
    ensures NoControl(FileLine(mode, size, name))
  {
    HeaderParses('C', mode, size, name, first);
    assert FileLine(mode, size, name) == ['C'] + Octal(mode) + " " + Decimal(size) + " " + name;
  }

  lemma DirectoryLineParses(mode: bv12, name: string, first: bool)
    requires NoControl(name)
    ensures Parse(DirectoryLine(mode, name), first) == EnterDirectory(mode, name)
    ensures NoControl(DirectoryLine(mode, name))
  {
    HeaderParses('D', mode, 0, name, first);
    assert DirectoryLine(mode, name) == ['D'] + Octal(mode) + " " + Decimal(0) + " " + name;
  }

  // ---------- exactly which lines are taken ----------

  predicate AllDigits(s: string) { forall i :: 0 <= i < |s| ==> '0' <= s[i] <= '9' }

  predicate AllOctal(s: string) { forall i :: 0 <= i < |s| ==> '0' <= s[i] <= '7' }

  /** The number that digits denote in a base, the last digit counting once. */
  function Denoted(digits: string, base: nat): nat
    requires AllDigits(digits)
  {
    if digits == "" then 0
    else Denoted(digits[..|digits| - 1], base) * base + (digits[|digits| - 1] as int - '0' as int)
  }

  lemma {:induction false} NumberIs(s: string, i: nat, j: nat)
    requires i <= j <= |s| && AllDigits(s[i..j])
    ensures var (t, k) := Number(s, j, Denoted(s[i..j], 10));
      && j <= k <= |s| && AllDigits(s[i..k]) && (k < |s| ==> !IsDigit(s[k]))
      && t == Denoted(s[i..k], 10)
    decreases |s| - j
  {
    hide AllDigits, Denoted;
    if j < |s| && IsDigit(s[j]) {
      assert s[i..j + 1] == s[i..j] + [s[j]];
      OneMoreDigit(s[i..j], s[j]);
      NumberIs(s, i, j + 1);
    }
  }

  lemma OneMoreDigit(digits: string, c: char)
    requires AllDigits(digits) && IsDigit(c)
    ensures AllDigits(digits + [c])
    ensures Denoted(digits + [c], 10) == Denoted(digits, 10) * 10 + (c as int - '0' as int)
  {
    assert (digits + [c])[..|digits|] == digits;
  }

  /** A run of digits is read up to its end, and for the number that it denotes; one without digits for 0. */
  lemma NumberReads(pre: string, digits: string, post: string)
    requires AllDigits(digits) && (post != "" ==> !IsDigit(post[0]))
    ensures Number(pre + digits + post, |pre|, 0) == (Denoted(digits, 10), |pre| + |digits|)
  {
    hide Number, Denoted, AllDigits;
    var k := DigitsEnd(pre + digits + post, |pre|);
    WholeRun(pre, digits, post, k);
  }

  lemma WholeRun(pre: string, digits: string, post: string, k: nat)
    requires AllDigits(digits) && (post != "" ==> !IsDigit(post[0]))
    requires var s := pre + digits + post;
      |pre| <= k <= |s| && AllDigits(s[|pre|..k]) && (k < |s| ==> !IsDigit(s[k]))
    ensures k == |pre| + |digits| && (pre + digits + post)[|pre|..k] == digits
  {
    var s, n := pre + digits + post, |pre| + |digits|;
    assert forall m :: |pre| <= m < n ==> s[m] == digits[m - |pre|];
    assert post != "" ==> s[n] == post[0];
    forall m | |pre| <= m < k
      ensures IsDigit(s[m])
    {
      assert s[|pre|..k][m - |pre|] == s[m];
    }
  }

  lemma DigitsEnd(s: string, i: nat) returns (k: nat)
    requires i <= |s|
    ensures i <= k <= |s| && AllDigits(s[i..k]) && (k < |s| ==> !IsDigit(s[k]))
    ensures Number(s, i, 0) == (Denoted(s[i..k], 10), k)
  {
    assert s[i..i] == "";
    NumberIs(s, i, i);
    k := Number(s, i, 0).1;
  }

  lemma OctalOfValue(c: char)
    requires IsOctalDigit(c)
    ensures OctalValue(c) < 8 && OctalDigit(OctalValue(c)) == c
  {
  }

  /** The mode that is read is the one whose four digits stand there. */
  lemma ModeIsPrinted(s: string, mode: bv12)
    requires ModeField(s, 1, 0) == Some(mode)
    ensures |s| >= 5 && s[1..5] == Octal(mode)
  {
    hide ModeField, OctalValue, OctalDigit, Octal;
    FourTaken(s);
    var d1, d2, d3, d4 := OctalValue(s[1]), OctalValue(s[2]), OctalValue(s[3]), OctalValue(s[4]);
    OctalOfValue(s[1]);
    OctalOfValue(s[2]);
    OctalOfValue(s[3]);
    OctalOfValue(s[4]);
    var m := OfDigits(s, d1, d2, d3, d4);
    assert s[1..5] == [s[1], s[2], s[3], s[4]];
  }

  lemma OfDigits(s: string, d1: bv12, d2: bv12, d3: bv12, d4: bv12) returns (m: bv12)
    requires d1 < 8 && d2 < 8 && d3 < 8 && d4 < 8 && |s| >= 5
    requires s[1] == OctalDigit(d1) && s[2] == OctalDigit(d2) && s[3] == OctalDigit(d3) && s[4] == OctalDigit(d4)
    ensures ModeField(s, 1, 0) == Some(m)
    ensures Octal(m) == [OctalDigit(d1), OctalDigit(d2), OctalDigit(d3), OctalDigit(d4)]
  {
    hide ModeField, OctalDigit;
    var m1 := (0 << 3) | d1;
    var m2 := (m1 << 3) | d2;
    var m3 := (m2 << 3) | d3;
    m := (m3 << 3) | d4;
    ModeChain(s, d1, d2, d3, d4, m1, m2, m3, m);
    DigitsOfMode(d1, d2, d3, d4, m1, m2, m3, m);
  }

  lemma DigitsOfMode(d1: bv12, d2: bv12, d3: bv12, d4: bv12, m1: bv12, m2: bv12, m3: bv12, m4: bv12)
    requires d1 < 8 && d2 < 8 && d3 < 8 && d4 < 8
    requires m1 == (0 << 3) | d1 && m2 == (m1 << 3) | d2 && m3 == (m2 << 3) | d3 && m4 == (m3 << 3) | d4
    ensures (m4 >> 9) & 7 == d1 && (m4 >> 6) & 7 == d2 && (m4 >> 3) & 7 == d3 && m4 & 7 == d4
  {
  }

  lemma {:induction false} AllTaken(s: string, i: nat, acc: bv12)
    ensures ModeField(s, i, acc).Some? <==> forall k :: i <= k < 5 ==> IsOctalDigit(At(s, k))
    decreases 5 - i
  {
    hide OctalValue;
    if i < 5 && IsOctalDigit(At(s, i)) {
      AllTaken(s, i + 1, (acc << 3) | OctalValue(At(s, i)));
    }
  }

  lemma FourTaken(s: string)
    ensures ModeField(s, 1, 0).Some? <==>
      |s| >= 5 && IsOctalDigit(s[1]) && IsOctalDigit(s[2]) && IsOctalDigit(s[3]) && IsOctalDigit(s[4])
  {
    hide ModeField;
    AllTaken(s, 1, 0);
    assert ModeField(s, 1, 0).Some? <==>
        IsOctalDigit(At(s, 1)) && IsOctalDigit(At(s, 2)) && IsOctalDigit(At(s, 3)) && IsOctalDigit(At(s, 4));
  }

  lemma ModeOfDigits(s: string)
    ensures ModeField(s, 1, 0).Some? <==> |s| >= 5 && AllOctal(s[1..5])
  {
    hide ModeField;
    FourTaken(s);
    if |s| >= 5 {
      var o := s[1..5];
      assert o[0] == s[1] && o[1] == s[2] && o[2] == s[3] && o[3] == s[4];
    }
  }

  /** What may stand behind a run of digits where `sep` is asked for and is not there. */
  predicate NotThere(rest: string, sep: char) { !IsDigit(At(rest, 0)) && At(rest, 0) != sep }

  lemma ReadsTo(pre: string, digits: string, post: string)
    requires AllDigits(digits) && !IsDigit(At(post, 0))
    ensures var s, k := pre + digits + post, |pre| + |digits|;
      Number(s, |pre|, 0) == (Denoted(digits, 10), k) && At(s, k) == At(post, 0)
  {
    NumberReads(pre, digits, post);
    if post != "" {
      assert (pre + digits + post)[|pre| + |digits|] == post[0];
    }
  }

  lemma CStringShift(pre: string, s: string, i: nat)
    ensures CString(pre + s, |pre| + i) == CString(s, i)
    decreases |s| - i
  {
    if i < |s| {
      assert (pre + s)[|pre| + i] == s[i];
      CStringShift(pre, s, i + 1);
    }
  }

  /** A header with four octal digits, any run of digits and a space behind each is taken, with the numbers that
      they denote, and the rest of the line up to a NUL as the name. */
  lemma HeaderTaken(letter: char, mode: string, size: string, rest: string, first: bool) returns (m: bv12)
    requires (letter == 'C' || letter == 'D') && |mode| == 4 && AllOctal(mode) && AllDigits(size)
    ensures Octal(m) == mode
    ensures Parse([letter] + mode + " " + size + " " + rest, first)
         == if letter == 'D' then EnterDirectory(m, CString(rest, 0))
            else StoreFile(m, Denoted(size, 10), CString(rest, 0))
  {
    hide Number, Denoted, Octal, CString, ModeField, ParseHeader, AllDigits;
    var s := [letter] + mode + " " + size + " " + rest;
    HeaderText(letter, mode, size, rest);
    assert s[1..5] == mode;
    ModeOfDigits(s);
    m := ModeField(s, 1, 0).value;
    ModeIsPrinted(s, m);
    assert At(" " + rest, 0) == ' ';
    ReadsTo([letter] + mode + " ", size, " " + rest);
    CStringShift([letter] + mode + " " + size + " ", rest, 0);
    HeaderOf(s, m, Denoted(size, 10), |size|);
  }

  /** And no other line is. */
  lemma HeaderOnlySo(s: string, first: bool) returns (mode: string, size: string, rest: string)
    requires Parse(s, first).StoreFile? || Parse(s, first).EnterDirectory?
    ensures s != "" && (Parse(s, first).StoreFile? ==> s[0] == 'C') && (Parse(s, first).EnterDirectory? ==> s[0] == 'D')
    ensures |mode| == 4 && AllOctal(mode) && AllDigits(size) && s == [s[0]] + mode + " " + size + " " + rest
  {
    hide Number, Denoted, Octal, CString, ModeField;
    ModeOfDigits(s);
    var k := DigitsEnd(s, 6);
    mode, size, rest := s[1..5], s[6..k], s[k + 1..];
    assert s[5] == ' ' && s[k] == ' ';
    assert s == [s[0]] + s[1..5] + [s[5]] + s[6..k] + [s[k]] + s[k + 1..];
  }

  /** Four runs of digits, set apart by spaces and with nothing or a NUL behind them, are taken as the times that
      they denote. */
  lemma TimesTaken(a: string, b: string, c: string, d: string, rest: string, first: bool)
    requires AllDigits(a) && AllDigits(b) && AllDigits(c) && AllDigits(d) && At(rest, 0) == '\0'
    ensures Parse("T" + a + " " + b + " " + c + " " + d + rest, first)
         == SetTimes(Times(Denoted(a, 10), Denoted(b, 10), Denoted(c, 10), Denoted(d, 10)))
  {
    hide Number, Denoted, AllDigits;
    TimesFields(a, b, c, d, rest);
    var s := "T" + a + " " + b + " " + c + " " + d + rest;
    ReadsTo("T", a, " " + b + " " + c + " " + d + rest);
    ReadsTo("T" + a + " ", b, " " + c + " " + d + rest);
    ReadsTo("T" + a + " " + b + " ", c, " " + d + rest);
    ReadsTo("T" + a + " " + b + " " + c + " ", d, rest);
    assert s[0] == 'T';
  }

  lemma TimesFields(a: string, b: string, c: string, d: string, rest: string)
    ensures var s := "T" + a + " " + b + " " + c + " " + d + rest;
      && s == "T" + a + (" " + b + " " + c + " " + d + rest)
      && s == ("T" + a + " ") + b + (" " + c + " " + d + rest)
      && s == ("T" + a + " " + b + " ") + c + (" " + d + rest)
      && s == ("T" + a + " " + b + " " + c + " ") + d + rest
  {
    var s := "T" + a + " " + b + " " + c + " " + d + rest;
    assert s == "T" + a + (" " + b + " " + c + " " + d + rest);
    assert s == ("T" + a + " ") + b + (" " + c + " " + d + rest);
    assert s == ("T" + a + " " + b + " ") + c + (" " + d + rest);
  }

  lemma TimesOnlySo(s: string, first: bool) returns (a: string, b: string, c: string, d: string, rest: string)
    requires Parse(s, first).SetTimes?
    ensures AllDigits(a) && AllDigits(b) && AllDigits(c) && AllDigits(d) && At(rest, 0) == '\0'
    ensures s == "T" + a + " " + b + " " + c + " " + d + rest
  {
    hide Number, Denoted, AllDigits, CString, ModeField;
    var k1 := DigitsEnd(s, 1);
    var k2 := DigitsEnd(s, k1 + 1);
    var k3 := DigitsEnd(s, k2 + 1);
    var k4 := DigitsEnd(s, k3 + 1);
    a, b, c, d, rest := s[1..k1], s[k1 + 1..k2], s[k2 + 1..k3], s[k3 + 1..k4], s[k4..];
    FieldsJoined(s, k1, k2, k3, k4);
  }

  lemma FieldsJoined(s: string, k1: nat, k2: nat, k3: nat, k4: nat)
    requires 1 <= k1 < k2 < k3 < k4 <= |s|
    requires s[0] == 'T' && s[k1] == ' ' && s[k2] == ' ' && s[k3] == ' '
    ensures s == "T" + s[1..k1] + " " + s[k1 + 1..k2] + " " + s[k2 + 1..k3] + " " + s[k3 + 1..k4] + s[k4..]
  {
    assert s[..k1] == "T" + s[1..k1];
    assert s[..k2] == s[..k1] + " " + s[k1 + 1..k2];
    assert s[..k3] == s[..k2] + " " + s[k2 + 1..k3];
    assert s[..k4] == s[..k3] + " " + s[k3 + 1..k4];
    assert s == s[..k4] + s[k4..];
  }

  /** The reason that is given is the first field that does not end as it should. */
  lemma TimesRejected(a: string, b: string, c: string, d: string, x: string, first: bool)
    requires AllDigits(a) && AllDigits(b) && AllDigits(c) && AllDigits(d) && NotThere(x, ' ')
    ensures Parse("T" + a + x, first) == Screwup("mtime.sec not delimited")
    ensures Parse("T" + a + " " + b + x, first) == Screwup("mtime.usec not delimited")
    ensures Parse("T" + a + " " + b + " " + c + x, first) == Screwup("atime.sec not delimited")
    ensures NotThere(x, '\0') ==>
      Parse("T" + a + " " + b + " " + c + " " + d + x, first) == Screwup("atime.usec not delimited")
  {
    hide Number, Denoted, AllDigits;
    ReadsTo("T", a, x);
    OneField(a, b, x);
    ReadsTo("T", a, " " + b + x);
    ReadsTo("T" + a + " ", b, x);
    TwoFields(a, b, c, x);
    ReadsTo("T", a, " " + b + " " + c + x);
    ReadsTo("T" + a + " ", b, " " + c + x);
    ReadsTo("T" + a + " " + b + " ", c, x);
    TimesFields(a, b, c, d, x);
    ReadsTo("T", a, " " + b + " " + c + " " + d + x);
    ReadsTo("T" + a + " ", b, " " + c + " " + d + x);
    ReadsTo("T" + a + " " + b + " ", c, " " + d + x);
    ReadsTo("T" + a + " " + b + " " + c + " ", d, x);
  }

  lemma OneField(a: string, b: string, x: string)
    ensures "T" + a + " " + b + x == "T" + a + (" " + b + x)
  {
  }

  lemma TwoFields(a: string, b: string, c: string, x: string)
    ensures var s := "T" + a + " " + b + " " + c + x;
      s == "T" + a + (" " + b + " " + c + x) && s == ("T" + a + " ") + b + (" " + c + x)
  {
    var s := "T" + a + " " + b + " " + c + x;
    assert s == "T" + a + (" " + b + " " + c + x);
    assert s == ("T" + a + " ") + b + (" " + c + x);
  }

  lemma HeaderRejected(letter: char, mode: string, size: string, x: string, first: bool)
    requires (letter == 'C' || letter == 'D') && |mode| <= 4 && AllOctal(mode) && AllDigits(size)
    ensures |mode| < 4 && !IsOctalDigit(At(x, 0)) ==> Parse([letter] + mode + x, first) == Screwup("bad mode")
    ensures |mode| == 4 && At(x, 0) != ' ' ==> Parse([letter] + mode + x, first) == Screwup("mode not delimited")
    ensures |mode| == 4 && NotThere(x, ' ') ==>
      Parse([letter] + mode + " " + size + x, first) == Screwup("size not delimited")
  {
    hide Number, Denoted, CString, ModeField, AllDigits;
    var s := [letter] + mode + x;
    FourTaken(s);
    ModeOfDigits(s);
    if |mode| < 4 {
      assert x != "" ==> s[1 + |mode|] == x[0];
    } else {
      assert s[1..5] == mode && (x != "" ==> s[5] == x[0]);
      var t := [letter] + mode + " " + size + x;
      assert t == ([letter] + mode + " ") + size + x && t[1..5] == mode && t[5] == ' ';
      ModeOfDigits(t);
      if !IsDigit(At(x, 0)) {
        ReadsTo([letter] + mode + " ", size, x);
      }
    }
  }

  /** The remaining lines: messages of the source, the end of a directory, and what is no record at all, which from
      the first line on is passed to the user. */
  lemma OtherLines(c: char, text: string, first: bool)
    requires '\0' !in text
    ensures Parse(['\U{1}'] + text, first) == Complaint(text + "\n", false)
    ensures Parse(['\U{2}'] + text, first) == Complaint(text + "\n", true)
    ensures Parse("E" + text, first) == LeaveDirectory
    ensures Parse("", first) == Screwup("unexpected '\\n'")
    ensures c !in "\0\U{1}\U{2}ETCD" ==> Parse([c] + text, true) == Foreign([c] + text)
    ensures c !in "\U{1}\U{2}ETCD" ==> Parse([c] + text, false) == Screwup("expected control record")
  {
    hide Number, ModeField, CString;
    assert ['\U{1}'] + text + "\n" == ['\U{1}'] + (text + "\n") && ['\U{2}'] + text + "\n" == ['\U{2}'] + (text + "\n");
    CStringOfSuffix(['\U{1}'], text + "\n");
    CStringOfSuffix(['\U{2}'], text + "\n");
    if c != '\0' {
      assert [] + ([c] + text) == [c] + text;
      CStringOfSuffix([], [c] + text);
    }
  }

  /** The lines as they look on the wire. */
  lemma LinesLookLike()
    ensures FileLine(0x1A4, 12, "name") == "C0644 12 name" && DirectoryLine(0xDED, "name") == "D6755 0 name"
    ensures TimesLine(1970, -1) == "T1970 0 -1 0"
    ensures ErrorMessage("path", "why") == "\U{1}rcp: path: why\n" && ACK == "\0"
  {
  }
}
