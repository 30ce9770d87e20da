/** The text two peers exchange for one move, "<row>,<col>": the encoder
    the game screen applies before handing its move to the peer link, and
    the decoder the peer link applies to every received message. Kotlin's
    `trim`, `split(",")`, `toIntOrNull` and `Int.toString` are written out
    over ASCII text. */
module WireCodec {
  import opened GameData

  // ---------------------------------------------------------------------
  // trim
  // ---------------------------------------------------------------------

  /** The ASCII characters Kotlin's `Char.isWhitespace` accepts: tab, line
      feed, vertical tab, form feed, carriage return, the four information
      separators and the space. */
  predicate IsWhitespace(c: char)
  {
    c == ' ' || 9 <= c as int <= 13 || 28 <= c as int <= 31
  }

  /** Drops the leading whitespace: the result is a suffix of s that does
      not start with whitespace, and every dropped character is whitespace. */
  function TrimStart(s: string): (r: string)
    ensures |r| <= |s| && r == s[|s| - |r|..]
    ensures |r| > 0 ==> !IsWhitespace(r[0])
    ensures forall i :: 0 <= i < |s| - |r| ==> IsWhitespace(s[i])
    decreases |s|
  {
    if |s| > 0 && IsWhitespace(s[0]) then TrimStart(s[1..]) else s
  }

  /** Drops the trailing whitespace: the result is a prefix of s that does
      not end with whitespace, and every dropped character is whitespace. */
  function TrimEnd(s: string): (r: string)
    ensures |r| <= |s| && r == s[..|r|]
    ensures |r| > 0 ==> !IsWhitespace(r[|r| - 1])
    ensures forall i :: |r| <= i < |s| ==> IsWhitespace(s[i])
    decreases |s|
  {
    if |s| > 0 && IsWhitespace(s[|s| - 1]) then TrimEnd(s[..|s| - 1]) else s
  }

  /** `String.trim()`. */
  function Trim(s: string): string
  {
    TrimEnd(TrimStart(s))
  }

  predicate AllWhitespace(s: string)
  {
    forall i :: 0 <= i < |s| ==> IsWhitespace(s[i])
  }

  /** Trimming removes exactly the whitespace padding: if s is a text t
      with whitespace on neither end, padded by whitespace on both sides,
      trimming gives back t. */
  lemma TrimRemovesPadding(pre: string, t: string, post: string)
    requires AllWhitespace(pre) && AllWhitespace(post)
    requires |t| > 0 ==> !IsWhitespace(t[0]) && !IsWhitespace(t[|t| - 1])
    ensures Trim(pre + t + post) == t
  {
    if |t| == 0 {
      assert pre + t + post == pre + post;
      TrimStartAllWhitespace(pre + post);
    } else {
      assert pre + t + post == pre + (t + post);
      TrimStartPadding(pre, t + post);
      TrimEndPadding(t, post);
    }
  }

  /** A text of whitespace only trims to nothing from the front. */
  lemma {:induction false} TrimStartAllWhitespace(s: string)
    requires AllWhitespace(s)
    ensures TrimStart(s) == ""
    decreases |s|
  {
    if |s| > 0 {
      TrimStartAllWhitespace(s[1..]);
    }
  }

  /** Leading whitespace before a text that starts with something else is
      exactly what `TrimStart` drops. */
  lemma {:induction false} TrimStartPadding(pre: string, t: string)
    requires AllWhitespace(pre)
    requires |t| > 0 && !IsWhitespace(t[0])
    ensures TrimStart(pre + t) == t
    decreases |pre|
  {
    if |pre| > 0 {
      assert (pre + t)[0] == pre[0];
      assert (pre + t)[1..] == pre[1..] + t;
      TrimStartPadding(pre[1..], t);
    } else {
      assert pre + t == t;
    }
  }

  /** Trailing whitespace after a text that does not end with whitespace
      is exactly what `TrimEnd` drops. */
  lemma {:induction false} TrimEndPadding(t: string, post: string)
    requires AllWhitespace(post)
    requires |t| > 0 ==> !IsWhitespace(t[|t| - 1])
    ensures TrimEnd(t + post) == t
    decreases |post|
  {
    var s := t + post;
    if |post| > 0 {
      assert s[|s| - 1] == post[|post| - 1];
      assert s[..|s| - 1] == t + post[..|post| - 1];
      TrimEndPadding(t, post[..|post| - 1]);
    } else {
      assert s == t;
    }
  }

  /** Trimming twice is trimming once. */
  lemma TrimIdempotent(s: string)
    ensures Trim(Trim(s)) == Trim(s)
  {
    var t := Trim(s);
    if |t| > 0 {
      TrimRemovesPadding("", t, "");
      assert "" + t + "" == t;
    }
  }

  // ---------------------------------------------------------------------
  // split(",")
  // ---------------------------------------------------------------------

  /** `split(d)` with a one-character delimiter and no limit: every piece,
      empty ones included. */
  function Split(s: string, d: char): (r: seq<string>)
    ensures |r| > 0
    decreases |s|
  {
    if |s| == 0 then [""]
    else
      var rest := Split(s[1..], d);
      if s[0] == d then [""] + rest
      else [[s[0]] + rest[0]] + rest[1..]
  }

  /** There is one more piece than there are delimiters, and no piece holds
      the delimiter. */
  lemma {:induction false} SplitPieces(s: string, d: char)
    ensures |Split(s, d)| == multiset(s)[d] + 1
    ensures forall k :: 0 <= k < |Split(s, d)| ==> d !in Split(s, d)[k]
    decreases |s|
  {
    if |s| > 0 {
      SplitPieces(s[1..], d);
      assert s == [s[0]] + s[1..];
      var rest := Split(s[1..], d);
      var r := Split(s, d);
      if s[0] != d {
        assert r[0] == [s[0]] + rest[0];
        forall k | 0 <= k < |r|
          ensures d !in r[k]
        {
          if k > 0 { assert r[k] == rest[k]; }
        }
      }
    }
  }

  /** The pieces glued back together with the delimiter. */
  function Join(parts: seq<string>, d: char): string
    requires |parts| > 0
    decreases |parts|
  {
    if |parts| == 1 then parts[0] else parts[0] + [d] + Join(parts[1..], d)
  }

  /** Splitting loses nothing: joining the pieces gives back the text. */
  lemma {:induction false} JoinSplit(s: string, d: char)
    ensures Join(Split(s, d), d) == s
    decreases |s|
  {
    if |s| > 0 {
      JoinSplit(s[1..], d);
      var rest := Split(s[1..], d);
      if s[0] != d {
        if |rest| == 1 {
          assert Join(Split(s, d), d) == [s[0]] + rest[0];
        } else {
          assert rest == [rest[0]] + rest[1..];
          assert Join(Split(s, d), d) == ([s[0]] + rest[0]) + [d] + Join(rest[1..], d);
          assert Join(rest, d) == rest[0] + [d] + Join(rest[1..], d);
        }
      }
    }
  }

  /** A text without the delimiter is one piece. */
  lemma {:induction false} SplitWhole(s: string, d: char)
    requires d !in s
    ensures Split(s, d) == [s]
    decreases |s|
  {
    if |s| > 0 {
      assert s[0] in s;
      assert forall c :: c in s[1..] ==> c in s;
      SplitWhole(s[1..], d);
      assert [s[0]] + s[1..] == s;
    }
  }

  /** Two delimiter-free texts joined by one delimiter split back into
      exactly those two pieces. */
  lemma {:induction false} SplitPair(a: string, b: string, d: char)
    requires d !in a && d !in b
    ensures Split(a + [d] + b, d) == [a, b]
    decreases |a|
  {
    var s := a + [d] + b;
    if |a| == 0 {
      assert s[0] == d && s[1..] == b;
      SplitWhole(b, d);
    } else {
      assert a[0] in a;
      assert forall c :: c in a[1..] ==> c in a;
      SplitPair(a[1..], b, d);
      assert s[0] == a[0] && s[1..] == a[1..] + [d] + b;
      assert [a[0]] + a[1..] == a;
    }
  }

  // ---------------------------------------------------------------------
  // toIntOrNull and Int.toString
  // ---------------------------------------------------------------------

  predicate IsDigit(c: char)
  {
    '0' <= c <= '9'
  }

  predicate AllDigits(s: string)
  {
    forall i :: 0 <= i < |s| ==> IsDigit(s[i])
  }

  function DigitValue(c: char): nat
    requires IsDigit(c)
  {
    c as int - '0' as int
  }

  function DigitChar(n: nat): (c: char)
    requires n < 10
    ensures IsDigit(c) && DigitValue(c) == n
  {
    ('0' as int + n) as char
  }

  /** The value of a decimal numeral, most significant digit first. */
  function DigitsValue(s: string): nat
    requires AllDigits(s)
  {
    if |s| == 0 then 0 else DigitsValue(s[..|s| - 1]) * 10 + DigitValue(s[|s| - 1])
  }

  /** `toIntOrNull()`: an optional '+' or '-', then at least one decimal
      digit and nothing else, with a value inside the 32-bit range. */
  function ParseInt(s: string): (r: Option<int>)
    ensures r.Some? ==> IntMin <= r.value <= IntMax
    ensures r.Some? ==> |s| > 0 && (s[0] == '-' || IsDigit(s[|s| - 1]))
  {
    if |s| == 0 then None
    else
      var digits := if s[0] == '-' || s[0] == '+' then s[1..] else s;
      if |digits| == 0 || !AllDigits(digits) then None
      else
        var v: int := if s[0] == '-' then -(DigitsValue(digits) as int) else DigitsValue(digits);
        if IntMin <= v <= IntMax then Some(v) else None
  }

  /** The Int a sign ("", "+" or "-") and a text d denote: the signed value
      of d when d is a non-empty numeral whose value is an Int. */
  function SignedNumeral(sign: string, d: string): Option<int>
  {
    if |d| == 0 || !AllDigits(d) then None
    else
      var v: int := if sign == "-" then -(DigitsValue(d) as int) else DigitsValue(d);
      if IntMin <= v <= IntMax then Some(v) else None
  }

  /** `toIntOrNull` reads a leading sign and the rest as that signed
      numeral. Every text splits this way (its first character is the sign
      when it is '+' or '-'), so this pins down `ParseInt` on all inputs;
      for instance "+5" is 5, "007" is 7 and "-0" is 0. */
  lemma ParseIntOfNumeral(sign: string, d: string)
    requires sign == "" || sign == "+" || sign == "-"
    requires sign == "" && |d| > 0 ==> d[0] != '+' && d[0] != '-'
    ensures ParseInt(sign + d) == SignedNumeral(sign, d)
  {
    var s := sign + d;
    if sign == "" {
      assert s == d;
    } else {
      assert s[0] == sign[0];
      assert s[1..] == d;
    }
  }

  /** A few texts `Int.toString` never prints. */
  lemma ParseIntExamples()
    ensures ParseInt("+5") == Some(5)
    ensures ParseInt("007") == Some(7)
    ensures ParseInt("-0") == Some(0)
    ensures ParseInt("+") == None && ParseInt("-") == None && ParseInt("1a") == None
  {
    ParseIntOfNumeral("+", "5");
    assert "+" + "5" == "+5";
    ParseIntOfNumeral("", "007");
    assert "" + "007" == "007";
    assert DigitsValue("007") == 7 by {
      assert "007"[..2] == "00" && "00"[..1] == "0" && "0"[..0] == "";
    }
    ParseIntOfNumeral("-", "0");
    assert "-" + "0" == "-0";
    ParseIntOfNumeral("+", "");
    ParseIntOfNumeral("-", "");
    assert "+" + "" == "+" && "-" + "" == "-";
    assert !IsDigit("1a"[1]);
  }

  /** The shortest decimal numeral of n. */
  function NatToString(n: nat): (s: string)
    ensures |s| > 0 && AllDigits(s) && DigitsValue(s) == n
    ensures s[0] == '0' ==> n == 0
    decreases n
  {
    if n < 10 then [DigitChar(n)]
    else
      var front := NatToString(n / 10);
      var s := front + [DigitChar(n % 10)];
      assert s[..|s| - 1] == front;
      s
  }

  /** `Int.toString()`: a '-' before the numeral of a negative number. */
  function IntToString(n: int): string
  {
    if n < 0 then "-" + NatToString(-n) else NatToString(n)
  }

  /** Parsing undoes printing on the whole 32-bit range. */
  lemma ParseIntToString(n: int)
    requires IntMin <= n <= IntMax
    ensures ParseInt(IntToString(n)) == Some(n)
  {
    var s := IntToString(n);
    if n < 0 {
      assert s[1..] == NatToString(-n);
    } else {
      var t := NatToString(n);
      assert IsDigit(t[0]);
    }
  }

  /** A printed number has neither a delimiter nor whitespace in it. */
  lemma IntToStringCharacters(n: int)
    ensures |IntToString(n)| > 0
    ensures forall i :: 0 <= i < |IntToString(n)| ==>
              IntToString(n)[i] != ',' && !IsWhitespace(IntToString(n)[i])
  {
    var s := IntToString(n);
    if n < 0 {
      var t := NatToString(-n);
      assert forall i :: 1 <= i < |s| ==> s[i] == t[i - 1];
    }
  }

  // ---------------------------------------------------------------------
  // The move text
  // ---------------------------------------------------------------------

  /** The text `"$row,$col"` a move is sent as. */
  function EncodeMove(p: Pos): string
  {
    IntToString(p.row) + "," + IntToString(p.col)
  }

  /** The decoding applied to an already trimmed message: exactly two
      comma-separated pieces, each an Int after trimming. No range check is
      made on the two numbers. */
  function DecodeMove(raw: string): (r: Option<Pos>)
    ensures r.Some? ==> multiset(raw)[','] == 1
    ensures r.Some? ==> IntMin <= r.value.row <= IntMax && IntMin <= r.value.col <= IntMax
  {
    SplitPieces(raw, ',');
    var coords := Split(raw, ',');
    if |coords| != 2 then None
    else
      var row := ParseInt(Trim(coords[0]));
      var col := ParseInt(Trim(coords[1]));
      if row.Some? && col.Some? then Some(Pos(row.value, col.value)) else None
  }

  /** An encoded move has no whitespace at either end, so trimming it on
      receipt changes nothing. */
  lemma EncodeMoveIsTrimmed(p: Pos)
    ensures Trim(EncodeMove(p)) == EncodeMove(p)
  {
    var a := IntToString(p.row);
    var b := IntToString(p.col);
    var s := EncodeMove(p);
    IntToStringCharacters(p.row);
    IntToStringCharacters(p.col);
    assert s[0] == a[0];
    assert s[|s| - 1] == b[|b| - 1];
    TrimRemovesPadding("", s, "");
    assert "" + s + "" == s;
  }

  /** Round trip: every move whose coordinates are Ints, in particular every
      board cell, decodes from its own text to itself. */
  lemma DecodeEncodeMove(p: Pos)
    requires IntMin <= p.row <= IntMax && IntMin <= p.col <= IntMax
    ensures DecodeMove(EncodeMove(p)) == Some(p)
  {
    var a := IntToString(p.row);
    var b := IntToString(p.col);
    assert "" + a + "" == a;
    assert "" + b + "" == b;
    DecodePaddedMove(p, "", "", "", "");
  }

  /** A text with no comma, or with more than one, is not two pieces and
      decodes to nothing. */
  lemma DecodeRejectsCommaCount(raw: string)
    requires multiset(raw)[','] != 1
    ensures DecodeMove(raw) == None
  {
  }

  /** A text with exactly one comma decodes exactly when both pieces, once
      trimmed, are Ints, and then to those two numbers. */
  lemma DecodePieces(a: string, b: string)
    requires ',' !in a && ',' !in b
    ensures DecodeMove(a + "," + b) ==
      if ParseInt(Trim(a)).Some? && ParseInt(Trim(b)).Some?
      then Some(Pos(ParseInt(Trim(a)).value, ParseInt(Trim(b)).value))
      else None
  {
    SplitPair(a, b, ',');
  }

  /** A piece that is empty or only whitespace is not a number, so the
      text decodes to nothing whichever side that piece is on. */
  lemma DecodeRejectsEmptyPiece(a: string, w: string)
    requires ',' !in a && AllWhitespace(w)
    ensures DecodeMove(a + "," + w) == None
    ensures DecodeMove(w + "," + a) == None
  {
    assert ',' !in w by {
      forall i | 0 <= i < |w| ensures w[i] != ',' { assert IsWhitespace(w[i]); }
    }
    TrimRemovesPadding(w, "", "");
    assert w + "" + "" == w;
    DecodePieces(a, w);
    DecodePieces(w, a);
  }

  /** No range check: every pair of Ints off the board is decoded as is. */
  lemma DecodeKeepsOffBoardPairs(p: Pos)
    requires IntMin <= p.row <= IntMax && IntMin <= p.col <= IntMax
    requires !(0 <= p.row < 3 && 0 <= p.col < 3)
    ensures DecodeMove(EncodeMove(p)) == Some(p)
  {
    DecodeEncodeMove(p);
  }

  /** A number padded with whitespace has no comma in it. */
  lemma PaddedNumberHasNoComma(n: int, pre: string, post: string)
    requires AllWhitespace(pre) && AllWhitespace(post)
    ensures ',' !in pre + IntToString(n) + post
  {
    var a := IntToString(n);
    IntToStringCharacters(n);
    var s := pre + a + post;
    forall i | 0 <= i < |s|
      ensures s[i] != ','
    {
      if i < |pre| {
        assert s[i] == pre[i];
      } else if i < |pre| + |a| {
        assert s[i] == a[i - |pre|];
      } else {
        assert s[i] == post[i - |pre| - |a|];
      }
    }
  }

  /** Whitespace around either number is accepted: a move text padded
      with whitespace before and after each number still decodes to the
      move. */
  lemma DecodePaddedMove(p: Pos, w1: string, w2: string, w3: string, w4: string)
    requires IntMin <= p.row <= IntMax && IntMin <= p.col <= IntMax
    requires AllWhitespace(w1) && AllWhitespace(w2) && AllWhitespace(w3) && AllWhitespace(w4)
    ensures DecodeMove((w1 + IntToString(p.row) + w2) + "," + (w3 + IntToString(p.col) + w4)) == Some(p)
  {
    var a := IntToString(p.row);
    var b := IntToString(p.col);
    IntToStringCharacters(p.row);
    IntToStringCharacters(p.col);
    var left := w1 + a + w2;
    var right := w3 + b + w4;
    PaddedNumberHasNoComma(p.row, w1, w2);
    PaddedNumberHasNoComma(p.col, w3, w4);
    SplitPair(left, right, ',');
    TrimRemovesPadding(w1, a, w2);
    TrimRemovesPadding(w3, b, w4);
    ParseIntToString(p.row);
    ParseIntToString(p.col);
  }
}
