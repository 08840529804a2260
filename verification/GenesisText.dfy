/** The genesis text embedded in the program: printed as rows of a C string array, compiled,
    and put together again at run time. Characters are ASCII codes or other bytes. */
module GenesisText {
  import opened Wrappers
  import opened Bytes
  import opened Sequences

  const NUL: byte := 0
  const NEWLINE: byte := 10
  const QUOTE: byte := 34
  const COMMA: byte := 44
  const BACKSLASH: byte := 92
  const WIDTH := 40

  // ---------- Printing ----------

  // The letter of a named escape sequence, for the characters that have one.
  function NamedEscape(c: byte): Option<byte> {
    if c == QUOTE || c == 63 || c == BACKSLASH then Some(c)
    else if c == 7 then Some(97)
    else if c == 8 then Some(98)
    else if c == 12 then Some(102)
    else if c == 10 then Some(110)
    else if c == 13 then Some(114)
    else if c == 9 then Some(116)
    else if c == 11 then Some(118)
    else None
  }

  predicate IsPlain(c: byte) {
    32 <= c <= 126 && NamedEscape(c).None?
  }

  predicate IsOctal(c: byte) {
    48 <= c <= 55
  }

  function OctalDigits(c: byte): (d: seq<byte>)
    ensures 1 <= |d| <= 3 && forall i :: 0 <= i < |d| ==> IsOctal(d[i])
  {
    var d0, d1, d2 := 48 + c / 64, 48 + c / 8 % 8, 48 + c % 8;
    if d0 == 48 then (if d1 == 48 then [d2] else [d1, d2]) else [d0, d1, d2]
  }

  function Escape(c: byte): seq<byte> {
    if IsPlain(c) then [c]
    else match NamedEscape(c)
      case Some(letter) => [BACKSLASH, letter]
      case None => [BACKSLASH] + OctalDigits(c)
  }

  function EscapeAll(row: seq<byte>): seq<byte> {
    if row == [] then [] else Escape(row[0]) + EscapeAll(row[1..])
  }

  function Chunks(text: seq<byte>, width: nat): (rows: seq<seq<byte>>)
    requires width > 0
    ensures forall row :: row in rows ==> 1 <= |row| <= width
  {
    if text == [] then []
    else if |text| <= width then [text]
    else [text[..width]] + Chunks(text[width..], width)
  }

  function Literal(row: seq<byte>): seq<byte> {
    [QUOTE] + EscapeAll(row) + [QUOTE]
  }

  function Joined(rows: seq<seq<byte>>): seq<byte> {
    if rows == [] then []
    else if |rows| == 1 then Literal(rows[0])
    else Literal(rows[0]) + [COMMA, NEWLINE] + Joined(rows[1..])
  }

  // ---------- Reading a literal, section 2.14.3 of ISO/IEC 14882:2011 ----------

  function SimpleEscape(letter: byte): Option<byte> {
    if letter == QUOTE || letter == 63 || letter == BACKSLASH || letter == 39 then Some(letter)
    else if letter == 97 then Some(7)
    else if letter == 98 then Some(8)
    else if letter == 102 then Some(12)
    else if letter == 110 then Some(10)
    else if letter == 114 then Some(13)
    else if letter == 116 then Some(9)
    else if letter == 118 then Some(11)
    else None
  }

  // How many octal digits s starts with, at most cap.
  function OctalRun(s: seq<byte>, cap: nat): (n: nat)
    ensures n <= |s| && n <= cap && forall i :: 0 <= i < n ==> IsOctal(s[i])
  {
    if cap == 0 || s == [] || !IsOctal(s[0]) then 0 else 1 + OctalRun(s[1..], cap - 1)
  }

  function OctalValue(digits: seq<byte>): nat
    requires forall i :: 0 <= i < |digits| ==> IsOctal(digits[i])
  {
    if digits == [] then 0
    else
      var last := digits[|digits| - 1];
      assert IsOctal(last);
      8 * OctalValue(digits[..|digits| - 1]) + (last as nat - 48)
  }

  // Reads up to the closing quote: the characters of the literal and what follows it. A
  // value past the range of a character is cut to its low eight bits.
  function ReadLiteral(s: seq<byte>): Option<(seq<byte>, seq<byte>)> {
    if s == [] || s[0] == NEWLINE then None
    else if s[0] == QUOTE then Some(([], s[1..]))
    else if s[0] != BACKSLASH then Cons(s[0], ReadLiteral(s[1..]))
    else
      var n := OctalRun(s[1..], 3);
      if n > 0 then Cons((OctalValue(s[1..][..n]) % 256) as byte, ReadLiteral(s[1 + n..]))
      else if |s| == 1 || SimpleEscape(s[1]).None? then None
      else Cons(SimpleEscape(s[1]).value, ReadLiteral(s[2..]))
  }

  function Cons(c: byte, r: Option<(seq<byte>, seq<byte>)>): Option<(seq<byte>, seq<byte>)> {
    match r
    case None => None
    case Some((cs, rest)) => Some(([c] + cs, rest))
  }

  function ReadRows(s: seq<byte>): Option<seq<seq<byte>>>
    decreases |s|
  {
    if |s| < 1 || s[0] != QUOTE then None
    else
      match ReadLiteral(s[1..])
      case None => None
      case Some((row, rest)) =>
        if rest == [] then Some([row])
        else if |rest| >= 2 && rest[0] == COMMA && rest[1] == NEWLINE && |rest| < |s| then
          match ReadRows(rest[2..])
          case None => None
          case Some(rows) => Some([row] + rows)
        else None
  }

  // ---------- What reading a printed row gives ----------

  predicate IsOctalEscaped(c: byte) {
    !IsPlain(c) && NamedEscape(c).None?
  }

  // How many of the characters after c its octal escape takes in as further digits.
  function Absorbed(c: byte, after: seq<byte>): (n: nat)
    ensures n <= |after| && forall i :: 0 <= i < n ==> IsOctal(after[..n][i])
  {
    if IsOctalEscaped(c) then OctalRun(after, 3 - |OctalDigits(c)|) else 0
  }

  function Combined(c: byte, digits: seq<byte>): byte
    requires forall i :: 0 <= i < |digits| ==> IsOctal(digits[i])
  {
    if digits == [] then c else (OctalValue(OctalDigits(c) + digits) % 256) as byte
  }

  function Reread(row: seq<byte>): (r: seq<byte>)
    ensures |r| <= |row|
  {
    if row == [] then []
    else
      var n := Absorbed(row[0], row[1..]);
      [Combined(row[0], row[1..][..n])] + Reread(row[n + 1..])
  }

  lemma OctalDigitsValue(c: byte)
    ensures OctalValue(OctalDigits(c)) == c as nat
  {
    hide OctalValue;
    OctalValueOf(OctalDigits(c));
    OctalParts(c as nat);
  }

  lemma OctalParts(n: nat)
    ensures n == 64 * (n / 64) + 8 * (n / 8 % 8) + n % 8
  {
    assert n / 8 / 8 == n / 64;
  }

  lemma OctalValueOf(d: seq<byte>)
    requires 1 <= |d| <= 3 && forall i :: 0 <= i < |d| ==> IsOctal(d[i])
    ensures |d| == 1 ==> OctalValue(d) == d[0] as nat - 48
    ensures |d| == 2 ==> OctalValue(d) == 8 * (d[0] as nat - 48) + (d[1] as nat - 48)
    ensures |d| == 3 ==> OctalValue(d) == 64 * (d[0] as nat - 48) + 8 * (d[1] as nat - 48) + (d[2] as nat - 48)
  {
    assert OctalValue(d[..0]) == 0;
    if |d| >= 2 {
      assert d[..2][..1] == d[..1] && d[..1][..0] == d[..0];
    }
    if |d| == 3 {
      assert d[..3] == d;
    }
    if |d| == 2 {
      assert d[..2] == d;
    }
  }

  // Digits followed by something that is no digit, or as many as may be taken.
  lemma {:induction false} RunOf(digits: seq<byte>, after: seq<byte>, cap: nat)
    requires forall i :: 0 <= i < |digits| ==> IsOctal(digits[i])
    requires |digits| <= cap && (|digits| == cap || after == [] || !IsOctal(after[0]))
    ensures OctalRun(digits + after, cap) == |digits|
  {
    if digits == [] {
      assert digits + after == after;
    } else {
      assert (digits + after)[1..] == digits[1..] + after;
      RunOf(digits[1..], after, cap - 1);
    }
  }

  lemma {:induction false} RunIsMaximal(s: seq<byte>, cap: nat)
    ensures var n := OctalRun(s, cap);
            n == cap || n == |s| || !IsOctal(s[n])
  {
    if cap > 0 && s != [] && IsOctal(s[0]) {
      RunIsMaximal(s[1..], cap - 1);
    }
  }

  // Digits are printed as themselves.
  lemma {:induction false} PrintedDigits(row: seq<byte>, n: nat)
    requires n <= |row| && forall i :: 0 <= i < n ==> IsOctal(row[i])
    ensures EscapeAll(row) == row[..n] + EscapeAll(row[n..])
  {
    hide OctalDigits, Escape;
    if n == 0 {
      assert row[0..] == row;
    } else {
      var tail := row[1..];
      PrintedDigits(tail, n - 1);
      DigitIsPlain(row[0]);
      assert EscapeAll(row) == [row[0]] + EscapeAll(tail);
      assert tail[n - 1..] == row[n..];
      assert row[..n] == [row[0]] + tail[..n - 1];
    }
  }

  lemma DigitIsPlain(c: byte)
    requires IsOctal(c)
    ensures Escape(c) == [c]
  {
  }

  // A printed row starts with an octal digit only if the row does.
  lemma PrintedStart(row: seq<byte>, rest: seq<byte>)
    ensures (row != [] && IsOctal(row[0])) || !IsOctal((EscapeAll(row) + [QUOTE] + rest)[0])
  {
    if row == [] {
      assert (EscapeAll(row) + [QUOTE] + rest)[0] == QUOTE;
    } else {
      assert (EscapeAll(row) + [QUOTE] + rest)[0] == Escape(row[0])[0];
    }
  }

  // The octal escape of c followed by the rest of its row reads as the escape's digits and
  // those it absorbs.
  lemma OctalEscapeRuns(c: byte, row: seq<byte>, rest: seq<byte>)
    requires IsOctalEscaped(c)
    ensures var d, n := OctalDigits(c), Absorbed(c, row);
            var s := d + EscapeAll(row) + [QUOTE] + rest;
            && OctalRun(s, 3) == |d| + n
            && s[..|d| + n] == d + row[..n]
            && s[|d| + n..] == EscapeAll(row[n..]) + [QUOTE] + rest
  {
    hide EscapeAll, OctalRun, OctalDigits;
    var d, n := OctalDigits(c), Absorbed(c, row);
    PrintedDigits(row, n);
    var after := EscapeAll(row[n..]) + [QUOTE] + rest;
    Rearrange(d, row[..n], EscapeAll(row[n..]), [QUOTE], rest);
    RunIsMaximal(row, 3 - |d|);
    PrintedStart(row[n..], rest);
    RunOf(d + row[..n], after, 3);
    SplitAt(d + row[..n], after);
  }

  lemma Rearrange(d: seq<byte>, a: seq<byte>, b: seq<byte>, quote: seq<byte>, rest: seq<byte>)
    ensures d + (a + b) + quote + rest == (d + a) + (b + quote + rest)
  {
  }

  lemma SplitAt(a: seq<byte>, b: seq<byte>)
    ensures (a + b)[..|a|] == a && (a + b)[|a|..] == b
  {
  }

  lemma ReadOctal(c: byte, after: seq<byte>, rest: seq<byte>)
    requires IsOctalEscaped(c)
    ensures var n := Absorbed(c, after);
            ReadLiteral(Escape(c) + EscapeAll(after) + [QUOTE] + rest) ==
            Cons(Combined(c, after[..n]), ReadLiteral(EscapeAll(after[n..]) + [QUOTE] + rest))
  {
    hide ReadLiteral, OctalDigits, EscapeAll, Cons, Escape, OctalRun, Combined, Absorbed, OctalValue;
    var d, n := OctalDigits(c), Absorbed(c, after);
    OctalEscapeRuns(c, after, rest);
    OctalEscapeIs(c);
    var t := d + EscapeAll(after) + [QUOTE] + rest;
    PutBefore([BACKSLASH], d, EscapeAll(after), [QUOTE], rest);
    ReadOctalStep(t, |d| + n);
    CombinedIs(c, after[..n]);
  }

  lemma OctalEscapeIs(c: byte)
    requires IsOctalEscaped(c)
    ensures Escape(c) == [BACKSLASH] + OctalDigits(c) && OctalDigits(c) != []
  {
    hide OctalDigits;
  }

  lemma PutBefore(first: seq<byte>, d: seq<byte>, a: seq<byte>, quote: seq<byte>, rest: seq<byte>)
    ensures (first + d) + a + quote + rest == first + (d + a + quote + rest)
  {
  }

  lemma CombinedIs(c: byte, digits: seq<byte>)
    requires forall i :: 0 <= i < |digits| ==> IsOctal(digits[i])
    ensures Combined(c, digits) == (OctalValue(OctalDigits(c) + digits) % 256) as byte
  {
    hide OctalDigits, OctalValue;
    OctalDigitsValue(c);
    if digits == [] {
      assert OctalDigits(c) + digits == OctalDigits(c);
    }
  }

  lemma ReadOctalStep(t: seq<byte>, n: nat)
    requires n > 0 && OctalRun(t, 3) == n
    ensures ReadLiteral([BACKSLASH] + t) == Cons((OctalValue(t[..n]) % 256) as byte, ReadLiteral(t[n..]))
  {
    var s := [BACKSLASH] + t;
    assert s[1..] == t && s[1 + n..] == t[n..];
  }

  lemma ReadPlainOrNamed(c: byte, t: seq<byte>)
    requires !IsOctalEscaped(c)
    ensures ReadLiteral(Escape(c) + t) == Cons(c, ReadLiteral(t))
  {
    hide OctalDigits;
    var s := Escape(c) + t;
    if IsPlain(c) {
      assert s[1..] == t;
    } else {
      var letter := NamedEscape(c).value;
      assert s[0] == BACKSLASH && s[1] == letter && s[2..] == t;
      assert !IsOctal(s[1..][0]);
    }
  }

  // Reading a printed row back gives what Reread says, and leaves what follows the quote.
  lemma {:induction false} ReadPrinted(row: seq<byte>, rest: seq<byte>)
    ensures ReadLiteral(EscapeAll(row) + [QUOTE] + rest) == Some((Reread(row), rest))
    decreases |row|
  {
    hide Combined, EscapeAll, ReadLiteral, Absorbed;
    if row == [] {
      ReadEnd(rest);
    } else {
      var n := Absorbed(row[0], row[1..]);
      assert row[n + 1..] == row[1..][n..];
      ReadFirst(row, rest);
      ReadPrinted(row[1..][n..], rest);
    }
  }

  lemma ReadEnd(rest: seq<byte>)
    ensures ReadLiteral(EscapeAll([]) + [QUOTE] + rest) == Some(([], rest))
  {
    assert EscapeAll([]) + [QUOTE] + rest == [QUOTE] + rest;
  }

  // The escape of a row's first character reads as that character and the digits it absorbs.
  lemma ReadFirst(row: seq<byte>, rest: seq<byte>)
    requires row != []
    ensures var after := row[1..];
            var n := Absorbed(row[0], after);
            ReadLiteral(EscapeAll(row) + [QUOTE] + rest) ==
            Cons(Combined(row[0], after[..n]), ReadLiteral(EscapeAll(after[n..]) + [QUOTE] + rest))
  {
    hide Escape, Combined, ReadLiteral, OctalDigits, OctalRun, Cons;
    var c, after := row[0], row[1..];
    if IsOctalEscaped(c) {
      ReadOctal(c, after, rest);
    } else {
      assert Escape(c) + EscapeAll(after) + [QUOTE] + rest == Escape(c) + (EscapeAll(after) + [QUOTE] + rest);
      ReadPlainOrNamed(c, EscapeAll(after) + [QUOTE] + rest);
      assert after[0..] == after && after[..0] == [];
      CombinedWithNone(c);
    }
  }

  lemma CombinedWithNone(c: byte)
    ensures Combined(c, []) == c
  {
  }

  // ---------- Which rows survive ----------

  // An octal escape of fewer than three digits before an octal digit.
  predicate Ambiguous(row: seq<byte>, i: nat)
    requires i + 1 < |row|
  {
    IsOctalEscaped(row[i]) && |OctalDigits(row[i])| < 3 && IsOctal(row[i + 1])
  }

  predicate Unambiguous(row: seq<byte>) {
    forall i :: 0 <= i < |row| - 1 ==> !Ambiguous(row, i)
  }

  lemma {:induction false} RereadIff(row: seq<byte>)
    ensures Unambiguous(row) ==> Reread(row) == row
    ensures !Unambiguous(row) ==> |Reread(row)| < |row|
  {
    hide Combined, Reread, Absorbed, Unambiguous;
    if row == [] {
      assert Reread(row) == [];
      assert Unambiguous(row) by {
        NothingAmbiguous();
      }
    } else {
      var n := Absorbed(row[0], row[1..]);
      RereadStep(row);
      UnambiguousStep(row);
      if n == 0 {
        RereadIff(row[1..]);
        CombinedWithNone(row[0]);
        assert row[1..][0..] == row[1..];
      }
    }
  }

  lemma NothingAmbiguous()
    ensures Unambiguous([])
  {
  }

  // An escape absorbs digits exactly when it is ambiguous.
  lemma UnambiguousStep(row: seq<byte>)
    requires row != []
    ensures Unambiguous(row) <==> Absorbed(row[0], row[1..]) == 0 && Unambiguous(row[1..])
  {
    hide OctalDigits;
    assert |row| > 1 ==> (Absorbed(row[0], row[1..]) == 0 <==> !Ambiguous(row, 0));
    assert forall i :: 0 <= i < |row[1..]| - 1 ==> Ambiguous(row[1..], i) == Ambiguous(row, i + 1);
    if Unambiguous(row[1..]) && !Unambiguous(row) {
      var i :| 0 <= i < |row| - 1 && Ambiguous(row, i);
      assert i > 0 ==> Ambiguous(row[1..], i - 1);
    }
  }

  function Padded(s: seq<byte>, width: nat): (r: seq<byte>)
    requires |s| <= width
    ensures |r| == width && forall i :: 0 <= i < width ==> r[i] == if i < |s| then s[i] else NUL
  {
    s + seq(width - |s|, _ => NUL)
  }

  // Past the last character that is not NUL, reading gives only NULs.
  lemma {:induction false} RereadZeros(u: seq<byte>, p: nat)
    requires forall i :: p <= i < |u| ==> u[i] == NUL
    ensures forall i :: p <= i < |Reread(u)| ==> Reread(u)[i] == NUL
    decreases |u|
  {
    hide OctalDigits, Combined;
    if u != [] {
      var n := Absorbed(u[0], u[1..]);
      var rest := u[n + 1..];
      RereadZeros(rest, if p == 0 then 0 else p - 1);
      if p == 0 {
        CombinedWithNone(u[0]);
      }
    }
  }

  // Text read from later in the row than where it has to stand cannot agree with the row.
  lemma ShiftedTextDiffers(t: seq<byte>, s: nat)
    requires 1 <= s <= |t| && t[0] != NUL
    ensures Padded(Reread(t[s..]), |t|) != t
  {
    var q := LastNonNul(t);
    var u := t[s..];
    RereadZeros(u, if q + 1 >= s then q + 1 - s else 0);
    assert Padded(Reread(u), |t|)[q] == NUL;
  }

  function LastNonNul(t: seq<byte>): (q: nat)
    requires t != [] && t[0] != NUL
    ensures q < |t| && t[q] != NUL && forall i :: q < i < |t| ==> t[i] == NUL
  {
    if t[|t| - 1] != NUL then |t| - 1 else LastNonNul(t[..|t| - 1])
  }

  // A row that is padded out to its own length agrees with itself only if unambiguous.
  lemma {:induction false} PaddedRereadIff(row: seq<byte>)
    ensures Padded(Reread(row), |row|) == row <==> Unambiguous(row)
    decreases |row|
  {
    hide OctalDigits, Combined, Reread, Padded, Unambiguous;
    RereadIff(row);
    if Unambiguous(row) {
    } else {
      var n := Absorbed(row[0], row[1..]);
      var t := row[1..];
      PaddedTail(row);
      if n == 0 {
        PaddedRereadIff(t);
        UnambiguousStep(row);
      } else {
        assert IsOctal(t[..n][0]) && t[0] == t[..n][0];
        ShiftedTextDiffers(t, n);
      }
    }
  }

  lemma PaddedTail(row: seq<byte>)
    requires row != []
    ensures Padded(Reread(row), |row|)[1..] == Padded(Reread(row[1..][Absorbed(row[0], row[1..])..]), |row| - 1)
  {
    hide Combined, Absorbed, Padded, Reread;
    var n := Absorbed(row[0], row[1..]);
    RereadStep(row);
    PaddedPrepend(Combined(row[0], row[1..][..n]), Reread(row[1..][n..]), |row|);
  }

  lemma RereadStep(row: seq<byte>)
    requires row != []
    ensures var n := Absorbed(row[0], row[1..]);
            Reread(row) == [Combined(row[0], row[1..][..n])] + Reread(row[1..][n..])
  {
    hide Combined, Absorbed;
    var n := Absorbed(row[0], row[1..]);
    assert row[1..][n..] == row[n + 1..];
  }

  lemma PaddedPrepend(c: byte, rest: seq<byte>, width: nat)
    requires |rest| + 1 <= width
    ensures Padded([c] + rest, width)[1..] == Padded(rest, width - 1)
  {
    hide Padded;
  }

  // ---------- The array and its reader ----------

  function UpToNul(s: seq<byte>): seq<byte> {
    if s == [] || s[0] == NUL then [] else [s[0]] + UpToNul(s[1..])
  }

  // One array element: the literal's characters, then NULs up to the element's size.
  function Element(row: seq<byte>): (e: seq<byte>)
    requires |row| <= WIDTH
    ensures |e| == WIDTH + 1
  {
    Padded(row, WIDTH + 1)
  }

  // The text put together from the rows: whole elements, and the last up to its first NUL.
  function Assembled(rows: seq<seq<byte>>): seq<byte>
    requires rows != [] && forall row :: row in rows ==> |row| <= WIDTH
  {
    if |rows| == 1 then UpToNul(Element(rows[0]))
    else Element(rows[0])[..WIDTH] + Assembled(rows[1..])
  }

  // compute_egenesis_json over a compiled array.
  method ComputeEgenesisJson(arrays: seq<seq<byte>>, ghost rows: seq<seq<byte>>) returns (result: seq<byte>)
    requires rows != [] && |arrays| == |rows|
    requires forall i :: 0 <= i < |rows| ==> |rows[i]| <= WIDTH && arrays[i] == Element(rows[i])
    ensures result == Assembled(rows)
  {
    result := [];
    var i := 0;
    while i < |arrays| - 1
      invariant i < |rows|
      invariant result + Assembled(rows[i..]) == Assembled(rows)
    {
      ghost var before := result;
      result := result + arrays[i][..WIDTH];
      assert rows[i..][1..] == rows[i + 1..];
      assert before + Assembled(rows[i..]) == before + (arrays[i][..WIDTH] + Assembled(rows[i + 1..]));
      i := i + 1;
    }
    result := result + UpToNul(arrays[|arrays| - 1]);
  }

  // convert_to_c_array, and the number of rows it writes.
  method ConvertToCArray(src: seq<byte>, width: nat) returns (dest: seq<byte>, row: nat)
    requires width > 0
    ensures dest == Joined(Chunks(src, width)) && row == |Chunks(src, width)|
  {
    hide Chunks, Continued, Joined, EscapeAll, From;
    dest := [];
    var needsComma := false;
    row := 0;
    StartAndEnd(src, width);
    var i := 0;
    FromStart(src);
    while i < |src|
      invariant i <= |src| + width && needsComma == (row > 0) && (row == 0 ==> dest == [] && i == 0)
      invariant row + |Chunks(From(src, i), width)| == |Chunks(src, width)|
      invariant dest + Continued(needsComma, Chunks(From(src, i), width)) == Joined(Chunks(src, width))
      decreases |src| + width - i
    {
      var j := if i + width < |src| then i + width else |src|;
      ghost var rest := Chunks(From(src, i), width);
      ghost var before := dest;
      if needsComma {
        dest := dest + [COMMA, NEWLINE];
      }
      dest := dest + [QUOTE];
      dest := AppendEscaped(dest, src[i..j]);
      dest := dest + [QUOTE];
      NextChunk(src, i, width);
      ContinuedStep(before, needsComma, rest);
      needsComma := true;
      row := row + 1;
      i := i + width;
    }
    FromEnd(src, i);
  }

  lemma FromStart(src: seq<byte>)
    ensures From(src, 0) == src
  {
  }

  lemma FromEnd(src: seq<byte>, i: nat)
    requires i >= |src|
    ensures From(src, i) == []
  {
  }

  lemma StartAndEnd(src: seq<byte>, width: nat)
    requires width > 0
    ensures Continued(false, Chunks(src, width)) == Joined(Chunks(src, width))
    ensures Chunks([], width) == [] && Continued(true, []) == [] && Continued(false, []) == []
  {
  }

  // The characters of one row.
  method AppendEscaped(dest: seq<byte>, row: seq<byte>) returns (r: seq<byte>)
    ensures r == dest + EscapeAll(row)
  {
    hide Escape;
    r := dest;
    var k := 0;
    assert EscapeAll([]) == [] && dest + [] == dest;
    hide EscapeAll;
    while k < |row|
      invariant k <= |row| && r == dest + EscapeAll(row[..k])
    {
      EscapeAllAppend(row[..k], row[k]);
      Associate(dest, EscapeAll(row[..k]), Escape(row[k]));
      assert row[..k] + [row[k]] == row[..k + 1];
      r := r + Escape(row[k]);
      k := k + 1;
    }
    assert row[..|row|] == row;
  }

  function From(src: seq<byte>, i: nat): seq<byte> {
    if i <= |src| then src[i..] else []
  }

  // The rest of the array text, after a row or at the start.
  function Continued(needsComma: bool, rows: seq<seq<byte>>): seq<byte> {
    if rows == [] then [] else (if needsComma then [COMMA, NEWLINE] else []) + Joined(rows)
  }

  lemma NextChunk(src: seq<byte>, i: nat, width: nat)
    requires i < |src| && width > 0
    ensures var j := if i + width < |src| then i + width else |src|;
            Chunks(From(src, i), width) == [src[i..j]] + Chunks(From(src, i + width), width)
  {
    var t := src[i..];
    if |t| <= width {
      assert src[i..|src|] == t;
    } else {
      assert t[..width] == src[i..i + width] && t[width..] == src[i + width..];
    }
  }

  lemma ContinuedStep(before: seq<byte>, needsComma: bool, rows: seq<seq<byte>>)
    requires rows != []
    ensures before + Continued(needsComma, rows) ==
            before + (if needsComma then [COMMA, NEWLINE] else []) + [QUOTE] + EscapeAll(rows[0]) + [QUOTE] + Continued(true, rows[1..])
  {
    hide EscapeAll, Joined, Continued;
    JoinedStep(rows);
    Spread(before, if needsComma then [COMMA, NEWLINE] else [], EscapeAll(rows[0]), Continued(true, rows[1..]));
    assert Continued(needsComma, rows) == (if needsComma then [COMMA, NEWLINE] else []) + Joined(rows) by {
      ContinuedMeans(needsComma, rows);
    }
  }

  lemma ContinuedMeans(needsComma: bool, rows: seq<seq<byte>>)
    requires rows != []
    ensures Continued(needsComma, rows) == (if needsComma then [COMMA, NEWLINE] else []) + Joined(rows)
  {
  }

  lemma JoinedStep(rows: seq<seq<byte>>)
    requires rows != []
    ensures Joined(rows) == Literal(rows[0]) + Continued(true, rows[1..])
  {
    hide EscapeAll, Literal;
    if |rows| == 1 {
      assert Literal(rows[0]) + [] == Literal(rows[0]);
    } else {
      Associate(Literal(rows[0]), [COMMA, NEWLINE], Joined(rows[1..]));
    }
  }

  lemma Spread(before: seq<byte>, separator: seq<byte>, escaped: seq<byte>, after: seq<byte>)
    ensures before + (separator + (([QUOTE] + escaped + [QUOTE]) + after)) ==
            before + separator + [QUOTE] + escaped + [QUOTE] + after
  {
  }

  lemma {:induction false} EscapeAllAppend(row: seq<byte>, c: byte)
    ensures EscapeAll(row + [c]) == EscapeAll(row) + Escape(c)
  {
    hide Escape;
    if row == [] {
      assert [c][1..] == [] && [] + [c] == [c];
      assert EscapeAll([c]) == Escape(c) + EscapeAll([]);
      assert Escape(c) + [] == Escape(c) == [] + Escape(c);
    } else {
      EscapeAllAppend(row[1..], c);
      assert (row + [c])[1..] == row[1..] + [c];
      Associate(Escape(row[0]), EscapeAll(row[1..]), Escape(c));
    }
  }

  // ---------- The round trip ----------

  function RereadAll(rows: seq<seq<byte>>): (r: seq<seq<byte>>)
    ensures |r| == |rows| && forall i :: 0 <= i < |rows| ==> r[i] == Reread(rows[i])
  {
    if rows == [] then [] else [Reread(rows[0])] + RereadAll(rows[1..])
  }

  lemma {:induction false} ReadJoined(rows: seq<seq<byte>>)
    requires rows != []
    ensures ReadRows(Joined(rows)) == Some(RereadAll(rows))
  {
    hide Reread, EscapeAll, ReadLiteral;
    var text := Joined(rows);
    if |rows| == 1 {
      assert text[1..] == EscapeAll(rows[0]) + [QUOTE] + [];
      ReadPrinted(rows[0], []);
      assert RereadAll(rows) == [Reread(rows[0])];
    } else {
      var rest := [COMMA, NEWLINE] + Joined(rows[1..]);
      assert text[1..] == EscapeAll(rows[0]) + [QUOTE] + rest;
      ReadPrinted(rows[0], rest);
      assert rest[2..] == Joined(rows[1..]);
      ReadJoined(rows[1..]);
    }
  }

  // What decides whether a text comes back: no ambiguous escape inside any row, and no NUL
  // in the last.
  ghost predicate SurvivesRows(rows: seq<seq<byte>>) {
    && (forall k :: 0 <= k < |rows| ==> Unambiguous(rows[k]))
    && (rows != [] ==> NUL !in rows[|rows| - 1])
  }

  function Flat(rows: seq<seq<byte>>): seq<byte> {
    if rows == [] then [] else rows[0] + Flat(rows[1..])
  }

  // All rows are full except perhaps the last.
  ghost predicate FullRows(rows: seq<seq<byte>>) {
    && (forall k :: 0 <= k < |rows| - 1 ==> |rows[k]| == WIDTH)
    && (rows != [] ==> 1 <= |rows[|rows| - 1]| <= WIDTH)
  }

  lemma {:induction false} ChunksShape(text: seq<byte>)
    ensures FullRows(Chunks(text, WIDTH)) && Flat(Chunks(text, WIDTH)) == text
    ensures |Chunks(text, WIDTH)| == (|text| + WIDTH - 1) / WIDTH
    ensures text != [] ==> Chunks(text, WIDTH) != []
    decreases |text|
  {
    if |text| > WIDTH {
      ChunksShape(text[WIDTH..]);
      assert text == text[..WIDTH] + text[WIDTH..];
    } else if text != [] {
      assert Flat([text]) == text + Flat([]);
    }
  }

  lemma {:induction false} UpToNulShape(s: seq<byte>, n: nat)
    requires n <= |s| && forall i :: n <= i < |s| ==> s[i] == NUL
    ensures NUL !in UpToNul(s) && |UpToNul(s)| <= n
    ensures NUL !in s[..n] ==> UpToNul(s) == s[..n]
  {
    if n > 0 && s[0] != NUL {
      UpToNulShape(s[1..], n - 1);
      assert s[..n] == [s[0]] + s[1..][..n - 1];
    } else if n > 0 {
      assert s[..n][0] == NUL;
    }
  }

  lemma LastRowIff(row: seq<byte>)
    requires |row| <= WIDTH
    ensures UpToNul(Element(Reread(row))) == row <==> Unambiguous(row) && NUL !in row
  {
    hide UpToNul, Reread;
    RereadIff(row);
    var r := Reread(row);
    UpToNulShape(Element(r), |r|);
    assert Element(r)[..|r|] == r;
  }

  lemma FullRowIff(row: seq<byte>)
    requires |row| == WIDTH
    ensures Element(Reread(row))[..WIDTH] == row <==> Unambiguous(row)
  {
    PaddedRereadIff(row);
    assert Element(Reread(row))[..WIDTH] == Padded(Reread(row), WIDTH);
  }

  lemma {:induction false} AssembledIff(rows: seq<seq<byte>>)
    requires rows != [] && FullRows(rows)
    ensures forall row :: row in RereadAll(rows) ==> |row| <= WIDTH
    ensures Assembled(RereadAll(rows)) == Flat(rows) <==> SurvivesRows(rows)
  {
    hide Reread, UpToNul, Unambiguous, Assembled, Flat, Element, SurvivesRows, RereadAll;
    FullRowsAreShort(rows);
    ShortRows(rows);
    if |rows| == 1 {
      LastRowIff(rows[0]);
      OneRow(rows);
    } else {
      var tail := rows[1..];
      AssembledIff(tail);
      FullRowIff(rows[0]);
      MoreRows(rows);
      SplitEqual(Element(Reread(rows[0]))[..WIDTH], rows[0], Assembled(RereadAll(tail)), Flat(tail));
      SurvivesTail(rows);
    }
  }

  lemma FullRowsAreShort(rows: seq<seq<byte>>)
    requires FullRows(rows)
    ensures forall row :: row in rows ==> |row| <= WIDTH
    ensures |rows| > 1 ==> FullRows(rows[1..])
  {
    forall k | 0 <= k < |rows| ensures |rows[k]| <= WIDTH {
    }
  }

  lemma OneRow(rows: seq<seq<byte>>)
    requires |rows| == 1 && |rows[0]| <= WIDTH
    ensures forall row :: row in RereadAll(rows) ==> |row| <= WIDTH
    ensures Assembled(RereadAll(rows)) == UpToNul(Element(Reread(rows[0])))
    ensures Flat(rows) == rows[0]
    ensures SurvivesRows(rows) <==> Unambiguous(rows[0]) && NUL !in rows[0]
  {
    hide Reread, UpToNul, Unambiguous, Element;
    assert Flat(rows) == rows[0] + [];
  }

  lemma MoreRows(rows: seq<seq<byte>>)
    requires |rows| > 1 && forall row :: row in rows ==> |row| <= WIDTH
    ensures forall row :: row in RereadAll(rows) ==> |row| <= WIDTH
    ensures forall row :: row in RereadAll(rows[1..]) ==> |row| <= WIDTH
    ensures Assembled(RereadAll(rows)) == Element(Reread(rows[0]))[..WIDTH] + Assembled(RereadAll(rows[1..]))
    ensures Flat(rows) == rows[0] + Flat(rows[1..])
  {
    hide Reread, UpToNul, Element, RereadAll, Assembled, Flat;
    ShortRows(rows);
    ShortRows(rows[1..]);
    RereadTail(rows);
    AssembledStep(RereadAll(rows));
    FlatStep(rows);
  }

  lemma RereadTail(rows: seq<seq<byte>>)
    requires rows != []
    ensures |RereadAll(rows)| == |rows| && RereadAll(rows)[0] == Reread(rows[0])
    ensures RereadAll(rows)[1..] == RereadAll(rows[1..])
  {
    hide Reread;
  }

  lemma FlatStep(rows: seq<seq<byte>>)
    requires rows != []
    ensures Flat(rows) == rows[0] + Flat(rows[1..])
  {
  }

  lemma AssembledStep(rows: seq<seq<byte>>)
    requires |rows| > 1 && forall row :: row in rows ==> |row| <= WIDTH
    ensures Assembled(rows) == Element(rows[0])[..WIDTH] + Assembled(rows[1..])
  {
  }

  lemma SurvivesTail(rows: seq<seq<byte>>)
    requires |rows| > 1
    ensures SurvivesRows(rows) <==> Unambiguous(rows[0]) && SurvivesRows(rows[1..])
  {
    hide Unambiguous;
    assert forall k :: 0 <= k < |rows[1..]| ==> rows[1..][k] == rows[k + 1];
    if Unambiguous(rows[0]) && SurvivesRows(rows[1..]) {
      forall k | 0 <= k < |rows| ensures Unambiguous(rows[k]) {
        assert k > 0 ==> rows[k] == rows[1..][k - 1];
      }
    }
  }

  lemma SplitEqual(a: seq<byte>, b: seq<byte>, x: seq<byte>, y: seq<byte>)
    requires |a| == |b|
    ensures a + x == b + y <==> a == b && x == y
  {
    if a + x == b + y {
      assert a == (a + x)[..|a|] && x == (a + x)[|a|..];
      assert b == (b + y)[..|b|] && y == (b + y)[|b|..];
    }
  }

  // Printed in rows of 40, read by a compiler and put together again. Nothing comes back if
  // the array does not compile or a literal does not fit its element.
  function Embedded(text: seq<byte>): Option<seq<byte>> {
    match ReadRows(Joined(Chunks(text, WIDTH)))
    case None => None
    case Some(rows) => if rows != [] && forall row :: row in rows ==> |row| <= WIDTH then Some(Assembled(rows)) else None
  }

  // The embedded text is the text exactly when no row has an ambiguous escape and the last
  // row has no NUL. The array has as many rows as the computed height says.
  lemma GenesisRoundTrip(text: seq<byte>)
    requires text != []
    ensures Embedded(text).Some?
    ensures Embedded(text) == Some(text) <==> SurvivesRows(Chunks(text, WIDTH))
    ensures |Chunks(text, WIDTH)| == (|text| + WIDTH - 1) / WIDTH
  {
    hide Joined, ReadRows, Reread, Flat, SurvivesRows, Chunks;
    var chunks := Chunks(text, WIDTH);
    ChunksShape(text);
    ReadJoined(chunks);
    var back := RereadAll(chunks);
    ShortRows(chunks);
    assert Embedded(text) == Some(Assembled(back));
    AssembledIff(chunks);
  }

  lemma ShortRows(rows: seq<seq<byte>>)
    requires forall row :: row in rows ==> |row| <= WIDTH
    ensures forall row :: row in RereadAll(rows) ==> |row| <= WIDTH
  {
  }

  // Printable text with the named control characters, which is all a JSON text can hold
  // besides bytes above 126, always survives.
  lemma JsonTextSurvives(text: seq<byte>)
    requires text != []
    requires forall c :: c in text ==> c >= 32 || NamedEscape(c).Some?
    ensures Embedded(text) == Some(text)
  {
    hide Embedded, Chunks, Flat, EscapeAll;
    var chunks := Chunks(text, WIDTH);
    ChunksShape(text);
    forall k | 0 <= k < |chunks| ensures Unambiguous(chunks[k]) && NUL !in chunks[k] {
      forall i | 0 <= i < |chunks[k]| ensures chunks[k][i] >= 32 || NamedEscape(chunks[k][i]).Some? {
        RowOfText(chunks, k, i);
      }
    }
    GenesisRoundTrip(text);
  }

  lemma {:induction false} RowOfText(rows: seq<seq<byte>>, k: nat, i: nat)
    requires k < |rows| && i < |rows[k]|
    ensures rows[k][i] in Flat(rows)
  {
    if k > 0 {
      RowOfText(rows[1..], k - 1, i);
    }
  }
}
