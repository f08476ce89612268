/**
 * The text form of a tic-tac-toe move: the "i,j" strings possible_moves produces
 * with f"{i},{j}", the parse map(int, move.split(',')) that make_move and
 * unmake_move apply to them, and the three input formats ask_player accepts.
 * Python's int(), str.split(',') and str.split() are modelled on ASCII text.
 */
module MoveText {
  import opened Grids

  // ---------------------------------------------------------------------------
  // Characters
  // ---------------------------------------------------------------------------

  predicate IsDigit(c: char) {
    '0' <= c <= '9'
  }

  function DigitValue(c: char): (d: nat)
    requires IsDigit(c)
    ensures d < 10
  {
    (c as int) - ('0' as int)
  }

  function DigitChar(d: nat): (c: char)
    requires d < 10
    ensures IsDigit(c) && DigitValue(c) == d
  {
    (('0' as int) + d) as char
  }

  /**
   * The ASCII characters str.split() breaks at: tab, line feed, vertical tab,
   * form feed, carriage return, the separators 0x1c..0x1f, and space.
   */
  predicate IsSpace(c: char) {
    (9 <= c as int <= 13) || (28 <= c as int <= 32)
  }

  /**
   * The ASCII characters int() skips around a number: tab, line feed, vertical
   * tab, form feed, carriage return and space. The separators 0x1c..0x1f, which
   * str.split() breaks at, make int() raise.
   */
  predicate IntSpace(c: char) {
    (9 <= c as int <= 13) || c == ' '
  }

  // ---------------------------------------------------------------------------
  // int(text)
  // ---------------------------------------------------------------------------

  /** s without the leading whitespace int() skips. */
  function TrimStart(s: string): (r: string)
    ensures |r| <= |s| && r == s[|s| - |r|..]
    ensures r == [] || !IntSpace(r[0])
    ensures forall k :: 0 <= k < |s| - |r| ==> IntSpace(s[k])
  {
    if s != [] && IntSpace(s[0]) then TrimStart(s[1..]) else s
  }

  /** s without the trailing whitespace int() skips. */
  function TrimEnd(s: string): (r: string)
    ensures |r| <= |s| && r == s[..|r|]
    ensures r == [] || !IntSpace(r[|r| - 1])
    ensures forall k :: |r| <= k < |s| ==> IntSpace(s[k])
  {
    if s != [] && IntSpace(s[|s| - 1]) then TrimEnd(s[..|s| - 1]) else s
  }

  function Strip(s: string): string {
    TrimEnd(TrimStart(s))
  }

  /**
   * The digit strings int() accepts after the sign: decimal digits, where a single
   * underscore may separate two digits.
   */
  predicate DigitString(s: string) {
    && |s| > 0
    && IsDigit(s[0])
    && IsDigit(s[|s| - 1])
    && forall k :: 0 <= k < |s| ==> IsDigit(s[k]) || (s[k] == '_' && k + 1 < |s| && IsDigit(s[k + 1]))
  }

  /** The number a digit string denotes; underscores carry no value. */
  function DigitsValue(s: string): nat {
    if s == [] then 0
    else if IsDigit(s[|s| - 1]) then 10 * DigitsValue(s[..|s| - 1]) + DigitValue(s[|s| - 1])
    else DigitsValue(s[..|s| - 1])
  }

  /** int(s) on a string: surrounding whitespace, an optional sign, then a digit string; None where Python raises ValueError. */
  function ParseInt(s: string): Option<int> {
    var t := Strip(s);
    if |t| > 0 && (t[0] == '+' || t[0] == '-') then
      if DigitString(t[1..]) then
        var v: int := DigitsValue(t[1..]);
        Some(if t[0] == '-' then -v else v)
      else None
    else if DigitString(t) then Some(DigitsValue(t))
    else None
  }

  /** Strip drops only the whitespace int() skips, and adds nothing. */
  lemma StripKeeps(s: string)
    ensures forall x :: x in s && !IntSpace(x) ==> x in Strip(s)
    ensures forall x :: x in Strip(s) ==> x in s
  {
    TrimStartKeeps(s);
    TrimEndKeeps(TrimStart(s));
  }

  lemma {:induction false} TrimStartKeeps(s: string)
    ensures forall x :: x in s && !IntSpace(x) ==> x in TrimStart(s)
    ensures forall x :: x in TrimStart(s) ==> x in s
  {
    if s != [] && IntSpace(s[0]) {
      TrimStartKeeps(s[1..]);
      assert s == [s[0]] + s[1..];
    }
  }

  lemma {:induction false} TrimEndKeeps(s: string)
    ensures forall x :: x in s && !IntSpace(x) ==> x in TrimEnd(s)
    ensures forall x :: x in TrimEnd(s) ==> x in s
  {
    if s != [] && IntSpace(s[|s| - 1]) {
      TrimEndKeeps(s[..|s| - 1]);
      assert s == s[..|s| - 1] + [s[|s| - 1]];
    }
  }

  /** int() refuses text with a comma in it, and text without a digit. */
  lemma ParseIntNeedsDigits(s: string)
    ensures ParseInt(s).Some? ==> ',' !in s
    ensures ParseInt(s).Some? ==> exists k :: 0 <= k < |s| && IsDigit(s[k])
  {
    var t := Strip(s);
    if ParseInt(s).Some? {
      var signed := |t| > 0 && (t[0] == '+' || t[0] == '-');
      var d := if signed then t[1..] else t;
      assert DigitString(d);
      assert ',' !in t by {
        NumberChars(t, signed, d);
      }
      StripKeeps(s);
      assert d[0] in t;
    }
  }

  lemma DigitStringAt(d: string, m: int)
    requires DigitString(d) && 0 <= m < |d|
    ensures IsDigit(d[m]) || d[m] == '_'
  {
    assert IsDigit(d[m]) || (d[m] == '_' && m + 1 < |d| && IsDigit(d[m + 1]));
  }

  /** The characters of an optional sign followed by a digit string. */
  lemma NumberChars(t: string, signed: bool, d: string)
    requires |t| > 0 && d == if signed then t[1..] else t
    requires signed ==> t[0] == '+' || t[0] == '-'
    requires DigitString(d)
    ensures ',' !in t
  {
    forall k | 0 <= k < |t|
      ensures t[k] != ','
    {
      if !signed || k > 0 {
        var m := if signed then k - 1 else k;
        assert 0 <= m < |d| && t[k] == d[m];
        DigitStringAt(d, m);
      }
    }
  }

  /** The decimal digits of n, most significant first, as f"{n}" writes them. */
  function NatToString(n: nat): (s: string)
    ensures |s| > 0 && forall k :: 0 <= k < |s| ==> IsDigit(s[k])
  {
    if n < 10 then [DigitChar(n)] else NatToString(n / 10) + [DigitChar(n % 10)]
  }

  /** f"{n}" for an int: a minus sign before the digits of a negative number. */
  function IntToString(n: int): (s: string)
    ensures |s| > 0 && !IntSpace(s[0]) && !IntSpace(s[|s| - 1])
    ensures forall k :: 0 <= k < |s| ==> IsDigit(s[k]) || (k == 0 && s[k] == '-')
  {
    if n < 0 then "-" + NatToString(-n) else NatToString(n)
  }

  /** Appending a digit multiplies the value so far by ten and adds the digit. */
  lemma DigitsValueSnoc(s: string, c: char)
    requires IsDigit(c)
    ensures DigitsValue(s + [c]) == 10 * DigitsValue(s) + DigitValue(c)
  {
    assert (s + [c])[..|s|] == s;
  }

  /** The digits f"{n}" writes read back as n. */
  lemma {:induction false} NatToStringValue(n: nat)
    ensures DigitString(NatToString(n)) && DigitsValue(NatToString(n)) == n
  {
    if n < 10 {
      assert NatToString(n) == [] + [DigitChar(n)];
      DigitsValueSnoc([], DigitChar(n));
    } else {
      NatToStringValue(n / 10);
      DigitsValueSnoc(NatToString(n / 10), DigitChar(n % 10));
    }
  }

  /** A string with no whitespace at either end is its own strip. */
  lemma StripUnspaced(s: string)
    requires s == [] || (!IntSpace(s[0]) && !IntSpace(s[|s| - 1]))
    ensures Strip(s) == s
  {
  }

  /** int(f"{n}") == n for every integer n. */
  lemma ParseIntToString(n: int)
    ensures ParseInt(IntToString(n)) == Some(n)
  {
    var s := IntToString(n);
    StripUnspaced(s);
    if n < 0 {
      NatToStringValue(-n);
      assert s[1..] == NatToString(-n);
    } else {
      NatToStringValue(n);
    }
  }

  /** int() ignores whitespace around the number. */
  lemma ParseIntPadded(n: int, pre: string, post: string)
    requires forall k :: 0 <= k < |pre| ==> IntSpace(pre[k])
    requires forall k :: 0 <= k < |post| ==> IntSpace(post[k])
    ensures ParseInt(pre + IntToString(n) + post) == Some(n)
  {
    var s := IntToString(n);
    StripPadded(pre, s, post);
    StripUnspaced(s);
    ParseIntToString(n);
  }

  /** Stripping removes exactly the whitespace around a text that neither starts nor ends with whitespace. */
  lemma StripPadded(pre: string, s: string, post: string)
    requires forall k :: 0 <= k < |pre| ==> IntSpace(pre[k])
    requires forall k :: 0 <= k < |post| ==> IntSpace(post[k])
    requires s != [] && !IntSpace(s[0]) && !IntSpace(s[|s| - 1])
    ensures Strip(pre + s + post) == s
  {
    var t := pre + s + post;
    assert TrimStart(t) == s + post by {
      assert (s + post)[0] == s[0];
      TrimStartSpaces(pre, s + post);
      assert t == pre + (s + post);
    }
    TrimEndSpaces(s, post);
    assert Strip(t) == TrimEnd(s + post);
  }

  lemma {:induction false} TrimStartSpaces(pre: string, rest: string)
    requires forall k :: 0 <= k < |pre| ==> IntSpace(pre[k])
    requires rest != [] && !IntSpace(rest[0])
    ensures TrimStart(pre + rest) == rest
  {
    if pre != [] {
      assert (pre + rest)[1..] == pre[1..] + rest;
      TrimStartSpaces(pre[1..], rest);
    } else {
      assert pre + rest == rest;
    }
  }

  lemma {:induction false} TrimEndSpaces(s: string, post: string)
    requires forall k :: 0 <= k < |post| ==> IntSpace(post[k])
    requires s != [] && !IntSpace(s[|s| - 1])
    ensures TrimEnd(s + post) == s
  {
    if post != [] {
      var last := |post| - 1;
      assert (s + post)[..|s + post| - 1] == s + post[..last];
      TrimEndSpaces(s, post[..last]);
    } else {
      assert s + post == s;
    }
  }

  // ---------------------------------------------------------------------------
  // str.split(sep) and str.split()
  // ---------------------------------------------------------------------------

  /** s.split(sep): the pieces between the occurrences of sep, empty pieces included. */
  function Split(s: string, sep: char): (parts: seq<string>)
    ensures |parts| >= 1
    ensures forall k :: 0 <= k < |parts| ==> sep !in parts[k]
    ensures |parts| == 1 <==> sep !in s
  {
    if s == [] then [""]
    else
      var rest := Split(s[1..], sep);
      if s[0] == sep then [""] + rest
      else [[s[0]] + rest[0]] + rest[1..]
  }

  /** sep.join(parts), the inverse of Split. */
  function Join(parts: seq<string>, sep: char): string
    requires |parts| >= 1
  {
    if |parts| == 1 then parts[0] else parts[0] + [sep] + Join(parts[1..], sep)
  }

  /** Joining the pieces of a split with the separator gives back the string. */
  lemma {:induction false} JoinSplit(s: string, sep: char)
    ensures Join(Split(s, sep), sep) == s
  {
    if s != [] {
      var rest := Split(s[1..], sep);
      JoinSplit(s[1..], sep);
      if s[0] == sep {
        assert Split(s, sep)[1..] == rest;
      } else {
        var parts := Split(s, sep);
        assert parts[1..] == rest[1..];
        if |rest| > 1 {
          assert rest[1..] == rest[1..];
        }
      }
    }
  }

  /** Splitting at the first separator: the piece before it, then the split of the rest. */
  lemma {:induction false} SplitAtFirst(a: string, sep: char, b: string)
    requires sep !in a
    ensures Split(a + [sep] + b, sep) == [a] + Split(b, sep)
  {
    if a == [] {
      assert a + [sep] + b == [sep] + b;
      assert ([sep] + b)[1..] == b;
    } else {
      assert (a + [sep] + b)[1..] == a[1..] + [sep] + b;
      SplitAtFirst(a[1..], sep, b);
      assert [a[0]] + a[1..] == a;
    }
  }

  /** The longest prefix of s without whitespace. */
  function Word(s: string): (w: string)
    ensures |w| <= |s| && w == s[..|w|]
    ensures forall k :: 0 <= k < |w| ==> !IsSpace(w[k])
    ensures |w| == |s| || IsSpace(s[|w|])
  {
    if s == [] || IsSpace(s[0]) then [] else [s[0]] + Word(s[1..])
  }

  /** s.split(): the maximal runs of non-whitespace, in order. */
  function Words(s: string): (ws: seq<string>)
    ensures forall k :: 0 <= k < |ws| ==> |ws[k]| > 0
    decreases |s|
  {
    if s == [] then []
    else if IsSpace(s[0]) then Words(s[1..])
    else
      var w := Word(s);
      assert |w| > 0;
      [w] + Words(s[|w|..])
  }

  /** A word without whitespace is read as one piece. */
  lemma {:induction false} WordOfUnspaced(w: string, rest: string)
    requires forall k :: 0 <= k < |w| ==> !IsSpace(w[k])
    requires rest == [] || IsSpace(rest[0])
    ensures Word(w + rest) == w
  {
    if w == [] {
      assert w + rest == rest;
    } else {
      assert (w + rest)[1..] == w[1..] + rest;
      WordOfUnspaced(w[1..], rest);
      assert [w[0]] + w[1..] == w;
    }
  }

  /** Whitespace before the text is skipped by split(). */
  lemma {:induction false} WordsSkipSpaces(pre: string, rest: string)
    requires forall k :: 0 <= k < |pre| ==> IsSpace(pre[k])
    ensures Words(pre + rest) == Words(rest)
  {
    if pre != [] {
      assert (pre + rest)[1..] == pre[1..] + rest;
      WordsSkipSpaces(pre[1..], rest);
    } else {
      assert pre + rest == rest;
    }
  }

  /** Two words separated by whitespace are the first two pieces of split(). */
  lemma TwoWords(a: string, gap: string, b: string, rest: string)
    requires |a| > 0 && forall k :: 0 <= k < |a| ==> !IsSpace(a[k])
    requires |b| > 0 && forall k :: 0 <= k < |b| ==> !IsSpace(b[k])
    requires |gap| > 0 && forall k :: 0 <= k < |gap| ==> IsSpace(gap[k])
    requires rest == [] || IsSpace(rest[0])
    ensures |Words(a + gap + b + rest)| >= 2
    ensures Words(a + gap + b + rest)[0] == a && Words(a + gap + b + rest)[1] == b
  {
    var s := a + gap + b + rest;
    assert s == a + (gap + b + rest);
    WordOfUnspaced(a, gap + b + rest);
    assert s[|a|..] == gap + (b + rest);
    WordsSkipSpaces(gap, b + rest);
    WordOfUnspaced(b, rest);
    assert (b + rest)[|b|..] == rest;
  }

  // ---------------------------------------------------------------------------
  // Moves as text
  // ---------------------------------------------------------------------------

  /** f"{i},{j}": the move string possible_moves produces for cell (i, j). */
  function FormatMove(p: Pos): string {
    IntToString(p.row) + "," + IntToString(p.col)
  }

  /** i, j = map(int, move.split(',')): None where Python raises (not two pieces, or a piece int() refuses). */
  function ParseMove(move: string): (r: Option<Pos>)
    ensures r.Some? ==> ',' in move
  {
    var parts := Split(move, ',');
    if |parts| != 2 then None
    else
      match (ParseInt(parts[0]), ParseInt(parts[1]))
      case (Some(i), Some(j)) => Some(Pos(i, j))
      case _ => None
  }

  /** make_move and unmake_move read back the cell possible_moves wrote. */
  lemma ParseFormatMove(p: Pos)
    ensures ParseMove(FormatMove(p)) == Some(p)
  {
    var a := IntToString(p.row);
    var b := IntToString(p.col);
    assert FormatMove(p) == a + [','] + b;
    NoCommaInNumber(p.row);
    NoCommaInNumber(p.col);
    SplitAtFirst(a, ',', b);
    SplitWithoutSeparator(b, ',');
    var parts := Split(FormatMove(p), ',');
    assert parts == [a, b];
    ParseIntToString(p.row);
    ParseIntToString(p.col);
  }

  lemma NoCommaInNumber(n: int)
    ensures ',' !in IntToString(n)
  {
    var s := IntToString(n);
    forall k | 0 <= k < |s|
      ensures s[k] != ','
    {
    }
  }

  /** A string without the separator splits into itself alone. */
  lemma SplitWithoutSeparator(s: string, sep: char)
    requires sep !in s
    ensures Split(s, sep) == [s]
  {
    JoinSplit(s, sep);
  }

  /** Distinct cells have distinct move strings. */
  lemma FormatMoveInjective(p: Pos, q: Pos)
    ensures FormatMove(p) == FormatMove(q) <==> p == q
  {
    ParseFormatMove(p);
    ParseFormatMove(q);
  }

  /**
   * ask_player's reading of a line (before the membership test): with a comma,
   * split at commas and convert both pieces; else two digits side by side; else
   * the first two whitespace-separated words. None where Python raises, which
   * ask_player catches and answers with the format message.
   */
  function ParseInput(moveStr: string): Option<Pos> {
    if ',' in moveStr then ParseMove(moveStr)
    else if |moveStr| == 2 && IsDigit(moveStr[0]) && IsDigit(moveStr[1]) then
      Some(Pos(DigitValue(moveStr[0]), DigitValue(moveStr[1])))
    else
      var parts := Words(moveStr);
      if |parts| < 2 then None
      else
        match (ParseInt(parts[0]), ParseInt(parts[1]))
        case (Some(i), Some(j)) => Some(Pos(i, j))
        case _ => None
  }

  /** "i,j" as possible_moves writes it is read as (i, j). */
  lemma ParseInputComma(p: Pos)
    ensures ParseInput(FormatMove(p)) == Some(p)
  {
    assert FormatMove(p)[|IntToString(p.row)|] == ',';
    ParseFormatMove(p);
  }

  /** "i j", with any run of whitespace between and after, is read as (i, j), whatever follows. */
  lemma ParseInputWords(p: Pos, gap: string, rest: string)
    requires |gap| > 0 && forall k :: 0 <= k < |gap| ==> IsSpace(gap[k])
    requires rest == [] || IsSpace(rest[0])
    requires ',' !in rest
    ensures ParseInput(IntToString(p.row) + gap + IntToString(p.col) + rest) == Some(p)
  {
    var a := IntToString(p.row);
    var b := IntToString(p.col);
    var s := a + gap + b + rest;
    assert ',' !in s by {
      forall k | 0 <= k < |s|
        ensures s[k] != ','
      {
        if k < |a| {
          assert s[k] == a[k];
        } else if k < |a| + |gap| {
          assert s[k] == gap[k - |a|];
        } else if k < |a| + |gap| + |b| {
          assert s[k] == b[k - |a| - |gap|];
        } else {
          assert s[k] == rest[k - |a| - |gap| - |b|];
        }
      }
    }
    assert !IsDigit(s[|a|]) by {
      assert s[|a|] == gap[0];
    }
    TwoWords(a, gap, b, rest);
    ParseIntToString(p.row);
    ParseIntToString(p.col);
  }

  /** The three formats ask_player accepts name the same cell: "i,j", "ij" and "i j". */
  lemma InputFormatsAgree(i: nat, j: nat)
    requires i < 10 && j < 10
    ensures ParseInput([DigitChar(i), ',', DigitChar(j)]) == Some(Pos(i, j))
    ensures ParseInput([DigitChar(i), DigitChar(j)]) == Some(Pos(i, j))
    ensures ParseInput([DigitChar(i), ' ', DigitChar(j)]) == Some(Pos(i, j))
  {
    CommaDigits(i, j);
    AdjacentDigits(i, j);
    SpacedDigits(i, j);
  }

  /** The separators 0x1c..0x1f: whitespace for str.split(), but not for int(). */
  predicate Separator(c: char) {
    28 <= c as int <= 31
  }

  /**
   * A separator c next to a number makes int() raise, so a comma line holding one
   * is malformed; between two words it separates "i" from "j". The whitespace
   * int() does skip is accepted around the number.
   */
  lemma SeparatorsAroundNumbers(c: char, i: nat, j: nat)
    requires Separator(c) && i < 10 && j < 10
    ensures ParseInt([c, DigitChar(i)]) == None
    ensures ParseInt([DigitChar(i), c]) == None
    ensures ParseInt([' ', DigitChar(i), '\t']) == Some(i)
    ensures ParseInput([DigitChar(i), c, ',', DigitChar(j)]) == None
    ensures ParseInput([DigitChar(i), c, DigitChar(j)]) == Some(Pos(i, j))
  {
    SeparatorBeforeNumber(c, i);
    SeparatorAfterNumber(c, i);
    SpacesAroundNumber(i);
    SeparatorInCommaLine(c, i, j);
    SeparatorBetweenWords(c, i, j);
  }

  lemma SpacesAroundNumber(i: nat)
    requires i < 10
    ensures ParseInt([' ', DigitChar(i), '\t']) == Some(i)
  {
    assert IntToString(i) == [DigitChar(i)];
    assert [' ', DigitChar(i), '\t'] == " " + IntToString(i) + "\t";
    ParseIntPadded(i, " ", "\t");
  }

  lemma SeparatorBeforeNumber(c: char, i: nat)
    requires Separator(c) && i < 10
    ensures ParseInt([c, DigitChar(i)]) == None
  {
    var d := DigitChar(i);
    var t := [c, d];
    assert !IntSpace(c) && !IntSpace(d) && !IsDigit(c);
    assert t[0] == c && t[|t| - 1] == d;
    assert Strip(t) == t;
    assert !DigitString(t);
  }

  lemma SeparatorAfterNumber(c: char, i: nat)
    requires Separator(c) && i < 10
    ensures ParseInt([DigitChar(i), c]) == None
  {
    var d := DigitChar(i);
    var t := [d, c];
    assert !IntSpace(c) && !IntSpace(d) && !IsDigit(c);
    assert t[0] == d && t[|t| - 1] == c;
    assert Strip(t) == t;
    assert !DigitString(t);
  }

  lemma SeparatorInCommaLine(c: char, i: nat, j: nat)
    requires Separator(c) && i < 10 && j < 10
    ensures ParseInput([DigitChar(i), c, ',', DigitChar(j)]) == None
  {
    var a, b := [DigitChar(i), c], [DigitChar(j)];
    var line := [DigitChar(i), c, ',', DigitChar(j)];
    assert line == a + [','] + b && ',' in line;
    SplitAtFirst(a, ',', b);
    SplitWithoutSeparator(b, ',');
    assert Split(line, ',') == [a, b];
    SeparatorAfterNumber(c, i);
  }

  lemma SeparatorBetweenWords(c: char, i: nat, j: nat)
    requires Separator(c) && i < 10 && j < 10
    ensures ParseInput([DigitChar(i), c, DigitChar(j)]) == Some(Pos(i, j))
  {
    assert IntToString(i) == [DigitChar(i)];
    assert IntToString(j) == [DigitChar(j)];
    assert IntToString(i) + [c] + IntToString(j) + "" == [DigitChar(i), c, DigitChar(j)];
    ParseInputWords(Pos(i, j), [c], "");
  }

  lemma CommaDigits(i: nat, j: nat)
    requires i < 10 && j < 10
    ensures ParseInput([DigitChar(i), ',', DigitChar(j)]) == Some(Pos(i, j))
  {
    assert IntToString(i) == [DigitChar(i)];
    assert IntToString(j) == [DigitChar(j)];
    ParseInputComma(Pos(i, j));
    assert FormatMove(Pos(i, j)) == [DigitChar(i), ',', DigitChar(j)];
  }

  lemma AdjacentDigits(i: nat, j: nat)
    requires i < 10 && j < 10
    ensures ParseInput([DigitChar(i), DigitChar(j)]) == Some(Pos(i, j))
  {
  }

  lemma SpacedDigits(i: nat, j: nat)
    requires i < 10 && j < 10
    ensures ParseInput([DigitChar(i), ' ', DigitChar(j)]) == Some(Pos(i, j))
  {
    assert IntToString(i) == [DigitChar(i)];
    assert IntToString(j) == [DigitChar(j)];
    ParseInputWords(Pos(i, j), " ", "");
    assert IntToString(i) + " " + IntToString(j) + "" == [DigitChar(i), ' ', DigitChar(j)];
  }
}
