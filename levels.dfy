/**
 * Parsing of a level description (prepare_data_level in Snake/Snake.py):
 * the lines of a text file become the walls, the initial snake and the
 * initial direction.
 */
module Levels {
  import opened Results
  import opened Coordinates

  /** The exceptions prepare_data_level can raise. */
  datatype LevelError =
    | WrongTokenCount   // a coordinate with other than two tokens (TypeError)
    | NotAnInteger      // a token int() rejects (ValueError)
    | MissingPart       // an '=' line with fewer than three parts (IndexError)

  /** What the first line holding '=' contributes. */
  datatype Header = Header(snake: Pos, direction: string, wall: Pos)

  datatype Level = Level(walls: seq<Pos>, snake: seq<Pos>, direction: string)

  // ---- str.split() ----

  /** The characters str.split() treats as whitespace. */
  predicate IsSpace(c: char) {
    c in {' ', '\t', '\n', '\r', '\U{000B}', '\U{000C}', '\U{001C}', '\U{001D}', '\U{001E}', '\U{001F}',
          '\U{0085}', '\U{00A0}', '\U{1680}', '\U{2000}', '\U{2001}', '\U{2002}', '\U{2003}', '\U{2004}',
          '\U{2005}', '\U{2006}', '\U{2007}', '\U{2008}', '\U{2009}', '\U{200A}', '\U{2028}', '\U{2029}',
          '\U{202F}', '\U{205F}', '\U{3000}'}
  }

  /** A token: a non-empty run of non-whitespace characters. */
  predicate IsWord(t: string) {
    t != [] && forall i :: 0 <= i < |t| ==> !IsSpace(t[i])
  }

  /** Length of the word at the front of s. */
  function WordLength(s: string): (n: nat)
    requires s != [] && !IsSpace(s[0])
    ensures 1 <= n <= |s| && IsWord(s[..n])
    ensures n < |s| ==> IsSpace(s[n])
  {
    if |s| == 1 || IsSpace(s[1]) then 1
    else
      var n := 1 + WordLength(s[1..]);
      assert s[..n] == [s[0]] + s[1..][..n - 1];
      n
  }

  /** str.split(): the maximal runs of non-whitespace, in order. */
  function Tokens(s: string): (ts: seq<string>)
    ensures forall i :: 0 <= i < |ts| ==> IsWord(ts[i])
    decreases |s|
  {
    if s == [] then []
    else if IsSpace(s[0]) then Tokens(s[1..])
    else
      var n := WordLength(s);
      [s[..n]] + Tokens(s[n..])
  }

  // ---- str.split(sep) ----

  /** str.split(c): the pieces between occurrences of c, one more than there are c's. */
  function SplitOn(s: string, c: char): (parts: seq<string>)
    ensures |parts| >= 1
    ensures (|parts| == 1) == (c !in s)
    ensures forall i :: 0 <= i < |parts| ==> c !in parts[i]
  {
    if s == [] then [[]]
    else
      var rest := SplitOn(s[1..], c);
      assert s == [s[0]] + s[1..];
      if s[0] == c then [[]] + rest
      else [[s[0]] + rest[0]] + rest[1..]
  }

  /** c.join(parts). */
  function JoinWith(parts: seq<string>, c: char): string
    requires |parts| >= 1
  {
    if |parts| == 1 then parts[0] else parts[0] + [c] + JoinWith(parts[1..], c)
  }

  // ---- int() ----

  predicate IsDigit(ch: char) {
    '0' <= ch <= '9'
  }

  predicate AllDigits(t: string) {
    forall i :: 0 <= i < |t| ==> IsDigit(t[i])
  }

  /** Decimal value of a digit string, most significant digit first. */
  function DigitsValue(t: string): nat
    requires AllDigits(t)
  {
    if t == [] then 0 else DigitsValue(t[..|t| - 1]) * 10 + ((t[|t| - 1] as int) - ('0' as int))
  }

  /** The tokens int() accepts here: decimal digits, optionally after one sign. */
  predicate IsIntToken(t: string) {
    (|t| >= 1 && AllDigits(t)) || (|t| >= 2 && (t[0] == '+' || t[0] == '-') && AllDigits(t[1..]))
  }

  /** int() on a token: an optional sign followed by decimal digits. */
  function ParseInt(t: string): (r: Result<int, LevelError>)
    ensures r.Success? <==> IsIntToken(t)
    ensures r.Success? ==> r.value == (if t[0] == '-' then 0 - DigitsValue(t[1..]) as int
                                       else if t[0] == '+' then DigitsValue(t[1..])
                                       else DigitsValue(t))
    ensures r.Failure? ==> r.error == NotAnInteger
    ensures r.Success? ==> IsWord(t) && (r.value < 0 ==> t[0] == '-')
    ensures t != [] && AllDigits(t) ==> r.Success? && r.value >= 0
  {
    if |t| >= 2 && (t[0] == '-' || t[0] == '+') && AllDigits(t[1..]) then
      var magnitude: int := DigitsValue(t[1..]);
      Success(if t[0] == '-' then -magnitude else magnitude)
    else if |t| >= 1 && AllDigits(t) then
      Success(DigitsValue(t))
    else
      Failure(NotAnInteger)
  }

  /** Decimal digits of n without leading zeros, as str() prints them. */
  function NatDigits(n: nat): string {
    var last := ((n % 10) + ('0' as int)) as char;
    if n < 10 then [last] else NatDigits(n / 10) + [last]
  }

  /** str(n). */
  function Show(n: int): string {
    if n < 0 then "-" + NatDigits(-n) else NatDigits(n)
  }

  // ---- Coordinate(*line.split()) ----

  /** The coordinate a line describes: exactly two integer tokens. */
  function ParseCoordinate(line: string): (r: Result<Pos, LevelError>)
    ensures r.Success? <==> |Tokens(line)| == 2 && ParseInt(Tokens(line)[0]).Success? && ParseInt(Tokens(line)[1]).Success?
    ensures r == Failure(WrongTokenCount) <==> |Tokens(line)| != 2
    ensures r.Failure? ==> r.error != MissingPart
    ensures r.Success? ==> |Tokens(line)| == 2 && ParseInt(Tokens(line)[0]) == Success(r.value.x)
                           && ParseInt(Tokens(line)[1]) == Success(r.value.y)
  {
    var ts := Tokens(line);
    if |ts| != 2 then Failure(WrongTokenCount)
    else
      var x :- ParseInt(ts[0]);
      var y :- ParseInt(ts[1]);
      Success(Pos(x, y))
  }

  /**
   * The coordinates of all lines, in order, or the error of the first line
   * that is not a coordinate (the lines before the last are read first).
   */
  function ParseAll(lines: seq<string>): Result<seq<Pos>, LevelError> {
    if lines == [] then Success([])
    else
      var init :- ParseAll(lines[..|lines| - 1]);
      var c :- ParseCoordinate(lines[|lines| - 1]);
      Success(init + [c])
  }

  // ---- prepare_data_level ----

  const LowerLetters := "abcdefghijklmnopqrstuvwxyz"

  /** ASCII case folding of str.lower(). */
  function Lower(s: string): (r: string)
    ensures |r| == |s|
    ensures forall i :: 0 <= i < |r| ==> !('A' <= r[i] <= 'Z')
    ensures forall i :: 0 <= i < |s| && 'A' <= s[i] <= 'Z' ==> 'a' <= r[i] <= 'z'
    ensures forall i :: 0 <= i < |s| && 'A' <= s[i] <= 'Z' ==> r[i] == LowerLetters[s[i] as int - 'A' as int]
    ensures forall i :: 0 <= i < |s| && !('A' <= s[i] <= 'Z') ==> r[i] == s[i]
  {
    seq(|s|, i requires 0 <= i < |s| => if 'A' <= s[i] <= 'Z' then ((s[i] as int) + 32) as char else s[i])
  }

  /** The first two lines, level[:2], and the others, level[2:]. */
  function HeadLines(level: seq<string>): (head: seq<string>)
    ensures |head| == if |level| < 2 then |level| else 2
    ensures head + RestLines(level) == level
  {
    if |level| < 2 then level else level[..2]
  }

  function RestLines(level: seq<string>): seq<string> {
    if |level| < 2 then [] else level[2..]
  }

  /** Index of the first line holding '=', or the number of lines if none does. */
  function HeaderEnd(header: seq<string>): (k: nat)
    ensures k <= |header|
    ensures forall i :: 0 <= i < k ==> '=' !in header[i]
    ensures k < |header| ==> '=' in header[k]
  {
    if header == [] then 0
    else if '=' in header[0] then 0
    else 1 + HeaderEnd(header[1..])
  }

  /** An '=' line: snake coordinate, then the lower-cased direction, then a wall coordinate. */
  function ParseHeader(line: string): (r: Result<Header, LevelError>)
    requires '=' in line
    ensures var parts := SplitOn(line, '=');
            r.Success? ==> |parts| >= 3 && ParseCoordinate(parts[0]) == Success(r.value.snake)
                           && r.value.direction == Lower(parts[1]) && ParseCoordinate(parts[2]) == Success(r.value.wall)
    ensures var parts := SplitOn(line, '=');
            |parts| < 3 && ParseCoordinate(parts[0]).Success? ==> r == Failure(MissingPart)
    ensures var parts := SplitOn(line, '=');
            r.Success? <==> |parts| >= 3 && ParseCoordinate(parts[0]).Success? && ParseCoordinate(parts[2]).Success?
    ensures var parts := SplitOn(line, '=');
            ParseCoordinate(parts[0]).Failure? ==> r == Failure(ParseCoordinate(parts[0]).error)
    ensures var parts := SplitOn(line, '=');
            |parts| >= 3 && ParseCoordinate(parts[0]).Success? && ParseCoordinate(parts[2]).Failure?
            ==> r == Failure(ParseCoordinate(parts[2]).error)
  {
    var parts := SplitOn(line, '=');
    var snake :- ParseCoordinate(parts[0]);
    var direction := Lower(parts[1]);
    if |parts| < 3 then Failure(MissingPart)
    else
      var wall :- ParseCoordinate(parts[2]);
      Success(Header(snake, direction, wall))
  }

  /**
   * What the first two lines give. The lines before the first '=' line
   * are snake cells; that '=' line, if any, adds one snake cell, the
   * direction and the first wall, and hides the header line after it.
   */
  function HeaderLevel(header: seq<string>): Result<Level, LevelError> {
    var k := HeaderEnd(header);
    var plain :- ParseAll(header[..k]);
    if k < |header| then
      var h :- ParseHeader(header[k]);
      Success(Level([h.wall], plain + [h.snake], h.direction))
    else
      Success(Level([], plain, ""))
  }

  /** The level a file describes: the header's part, then one wall per later line. */
  function ParseLevel(level: seq<string>): Result<Level, LevelError> {
    var head :- HeaderLevel(HeadLines(level));
    var walls :- ParseAll(RestLines(level));
    Success(head.(walls := head.walls + walls))
  }

  /** After one more good line, the lines parsed so far still agree with ParseAll. */
  lemma ParseAllSnoc(lines: seq<string>, i: nat, acc: seq<Pos>)
    requires i < |lines| && ParseAll(lines[..i]) == Success(acc)
    requires ParseCoordinate(lines[i]).Success?
    ensures ParseAll(lines[..i + 1]) == Success(acc + [ParseCoordinate(lines[i]).value])
  {
    assert lines[..i + 1][..i] == lines[..i];
  }

  /** The first bad line decides the error of the whole list. */
  lemma {:induction false} ParseAllFirstFailure(lines: seq<string>, i: nat)
    requires i < |lines| && ParseAll(lines[..i]).Success?
    requires ParseCoordinate(lines[i]).Failure?
    ensures ParseAll(lines) == Failure(ParseCoordinate(lines[i]).error)
  {
    var init := lines[..|lines| - 1];
    if i == |lines| - 1 {
      assert init == lines[..i];
    } else {
      assert init[..i] == lines[..i] && init[i] == lines[i];
      ParseAllFirstFailure(init, i);
    }
  }

  /**
   * ParseAll succeeds exactly when every line is a coordinate, and then
   * yields those coordinates in order.
   */
  lemma {:induction false} ParseAllPointwise(lines: seq<string>)
    ensures ParseAll(lines).Success? <==> forall i :: 0 <= i < |lines| ==> ParseCoordinate(lines[i]).Success?
    ensures ParseAll(lines).Success? ==>
              |ParseAll(lines).value| == |lines|
              && forall i :: 0 <= i < |lines| ==> ParseAll(lines).value[i] == ParseCoordinate(lines[i]).value
  {
    if lines != [] {
      var init := lines[..|lines| - 1];
      ParseAllPointwise(init);
      assert forall i :: 0 <= i < |init| ==> init[i] == lines[i];
    }
  }

  /** The first loop of prepare_data_level, over level[:2], leaving at the first '=' line. */
  method ReadHeader(header: seq<string>) returns (r: Result<Level, LevelError>)
    ensures r == HeaderLevel(header)
  {
    var walls: seq<Pos> := [];
    var initSnake: seq<Pos> := [];
    var initDirection := "";
    ghost var k := HeaderEnd(header);
    var i := 0;
    while i < |header|
      invariant 0 <= i <= k
      invariant ParseAll(header[..i]) == Success(initSnake)
      invariant walls == [] && initDirection == ""
    {
      var line := header[i];
      if '=' in line {
        assert i == k && header[..k] == header[..i];
        var parts := SplitOn(line, '=');
        var snakeCell := ParseCoordinate(parts[0]);
        if snakeCell.Failure? {
          return Failure(snakeCell.error);
        }
        initDirection := Lower(parts[1]);
        if |parts| < 3 {
          return Failure(MissingPart);
        }
        var wallCell := ParseCoordinate(parts[2]);
        if wallCell.Failure? {
          return Failure(wallCell.error);
        }
        assert ParseHeader(line) == Success(Header(snakeCell.value, initDirection, wallCell.value));
        initSnake := initSnake + [snakeCell.value];
        walls := walls + [wallCell.value];
        assert walls == [wallCell.value];
        break;
      }
      var cell := ParseCoordinate(line);
      if cell.Failure? {
        assert header[..k][..i] == header[..i];
        ParseAllFirstFailure(header[..k], i);
        return Failure(cell.error);
      }
      ParseAllSnoc(header, i, initSnake);
      initSnake := initSnake + [cell.value];
      i := i + 1;
    }
    if i == |header| {
      assert header[..k] == header[..i];
    }
    r := Success(Level(walls, initSnake, initDirection));
  }

  /** prepare_data_level: the header loop, then one wall per remaining line. */
  method PrepareDataLevel(level: seq<string>) returns (r: Result<Level, LevelError>)
    ensures r == ParseLevel(level)
  {
    var head := ReadHeader(HeadLines(level));
    if head.Failure? {
      return Failure(head.error);
    }
    var walls := head.value.walls;
    var rest := RestLines(level);
    ghost var later: seq<Pos> := [];
    var j := 0;
    assert rest[..0] == [];
    while j < |rest|
      invariant 0 <= j <= |rest|
      invariant walls == head.value.walls + later
      invariant ParseAll(rest[..j]) == Success(later)
    {
      var cell := ParseCoordinate(rest[j]);
      if cell.Failure? {
        ParseAllFirstFailure(rest, j);
        return Failure(cell.error);
      }
      ParseAllSnoc(rest, j, later);
      walls := walls + [cell.value];
      later := later + [cell.value];
      j := j + 1;
    }
    assert rest[..j] == rest;
    r := Success(Level(walls, head.value.snake, head.value.direction));
  }

  // ---- properties ----

  /** Splitting on c and joining with c gives the line back. */
  lemma {:induction false} SplitJoin(s: string, c: char)
    ensures JoinWith(SplitOn(s, c), c) == s
  {
    if s != [] {
      var rest := SplitOn(s[1..], c);
      SplitJoin(s[1..], c);
      var parts := SplitOn(s, c);
      if s[0] == c {
        assert parts[1..] == rest;
      } else if |rest| > 1 {
        assert parts[1..] == rest[1..];
        assert JoinWith(rest, c) == rest[0] + [c] + JoinWith(rest[1..], c);
      }
    }
  }

  /** Joining pieces free of c and splitting on c gives the pieces back. */
  lemma {:induction false} JoinSplit(parts: seq<string>, c: char)
    requires |parts| >= 1
    requires forall i :: 0 <= i < |parts| ==> c !in parts[i]
    ensures SplitOn(JoinWith(parts, c), c) == parts
  {
    if |parts| == 1 {
      NoSeparator(parts[0], c);
    } else {
      JoinSplit(parts[1..], c);
      SeparatorAfter(parts[0], JoinWith(parts[1..], c), c);
      assert parts == [parts[0]] + parts[1..];
    }
  }

  lemma {:induction false} NoSeparator(s: string, c: char)
    requires c !in s
    ensures SplitOn(s, c) == [s]
  {
    if s != [] {
      NoSeparator(s[1..], c);
      assert [s[0]] + s[1..] == s;
    }
  }

  lemma {:induction false} SeparatorAfter(a: string, b: string, c: char)
    requires c !in a
    ensures SplitOn(a + [c] + b, c) == [a] + SplitOn(b, c)
  {
    if a == [] {
      SplitOnFront(c, b, c);
      assert a + [c] + b == [c] + b;
    } else {
      var t := a[1..] + [c] + b;
      assert c !in a[1..] by {
        assert forall ch :: ch in a[1..] ==> ch in a;
      }
      SeparatorAfter(a[1..], b, c);
      var rest := SplitOn(t, c);
      assert rest == [a[1..]] + SplitOn(b, c);
      assert a[0] in a;
      SplitOnFront(a[0], t, c);
      assert a + [c] + b == [a[0]] + t;
      calc {
        SplitOn(a + [c] + b, c);
        SplitOn([a[0]] + t, c);
        [[a[0]] + rest[0]] + rest[1..];
        { assert rest[0] == a[1..] && rest[1..] == SplitOn(b, c); assert [a[0]] + a[1..] == a; }
        [a] + SplitOn(b, c);
      }
    }
  }

  /** One step of split(c) at the front of a line. */
  lemma SplitOnFront(ch: char, t: string, c: char)
    ensures var rest := SplitOn(t, c);
            SplitOn([ch] + t, c) == if ch == c then [[]] + rest else [[ch] + rest[0]] + rest[1..]
  {
    assert ([ch] + t)[0] == ch && ([ch] + t)[1..] == t;
  }

  /** The digits str() prints read back, under int(), as the number. */
  lemma {:induction false} NatDigitsValue(n: nat)
    ensures |NatDigits(n)| >= 1 && AllDigits(NatDigits(n))
    ensures DigitsValue(NatDigits(n)) == n
  {
    if n >= 10 {
      NatDigitsValue(n / 10);
      var t := NatDigits(n);
      assert t[..|t| - 1] == NatDigits(n / 10);
    }
  }

  /** int(str(n)) == n. */
  lemma ParseShow(n: int)
    ensures ParseInt(Show(n)) == Success(n)
  {
    var t := Show(n);
    if n < 0 {
      NatDigitsValue(-n);
      assert t[0] == '-' && t[1..] == NatDigits(-n);
      var magnitude: int := DigitsValue(t[1..]);
      assert magnitude == -n;
    } else {
      NatDigitsValue(n);
      assert IsDigit(t[0]);
      assert !(t[0] == '-' || t[0] == '+');
    }
  }

  /** A word is exactly one token. */
  lemma WordTokens(w: string)
    requires IsWord(w)
    ensures WordLength(w) == |w| && Tokens(w) == [w]
  {
    assert w[..|w|] == w && w[|w|..] == [];
  }

  /** A word followed by whitespace has exactly the word's length. */
  lemma {:induction false} WordLengthAt(s: string, n: nat)
    requires 1 <= n < |s| && IsWord(s[..n]) && IsSpace(s[n])
    ensures WordLength(s) == n
  {
    assert s[0] == s[..n][0];
    if n > 1 {
      assert s[1..][..n - 1] == s[..n][1..];
      assert s[1] == s[..n][1];
      WordLengthAt(s[1..], n - 1);
    }
  }

  /** Whitespace only, possibly nothing. */
  predicate IsBlank(s: string) {
    forall i :: 0 <= i < |s| ==> IsSpace(s[i])
  }

  /**
   * The words ws written out with the whitespace runs gaps around and
   * between them: gaps[0] ws[0] gaps[1] ... ws[n-1] gaps[n].
   */
  function Layout(ws: seq<string>, gaps: seq<string>): string
    requires |gaps| == |ws| + 1
  {
    if ws == [] then gaps[0] else gaps[0] + ws[0] + Layout(ws[1..], gaps[1..])
  }

  /** The gaps are whitespace, and every gap between two words is non-empty. */
  predicate Separates(ws: seq<string>, gaps: seq<string>) {
    |gaps| == |ws| + 1
    && (forall i :: 0 <= i < |gaps| ==> IsBlank(gaps[i]))
    && (forall i :: 0 < i < |ws| ==> gaps[i] != [])
  }

  /** The whitespace runs of s, one more than s has tokens. */
  function GapsOf(s: string): (gaps: seq<string>)
    ensures |gaps| == |Tokens(s)| + 1
    ensures s != [] && IsSpace(s[0]) ==> gaps[0] != []
    decreases |s|
  {
    if s == [] then [[]]
    else if IsSpace(s[0]) then
      var g := GapsOf(s[1..]);
      [[s[0]] + g[0]] + g[1..]
    else [[]] + GapsOf(s[WordLength(s)..])
  }

  /** Leading whitespace does not change the tokens. */
  lemma {:induction false} BlankTokens(b: string, t: string)
    requires IsBlank(b)
    ensures Tokens(b + t) == Tokens(t)
    decreases |b|
  {
    if b == [] {
      assert b + t == t;
    } else {
      assert (b + t)[0] == b[0];
      assert (b + t)[1..] == b[1..] + t;
      assert IsBlank(b[1..]) by {
        forall i | 0 <= i < |b[1..]| ensures IsSpace(b[1..][i]) {
          assert b[1..][i] == b[i + 1];
        }
      }
      BlankTokens(b[1..], t);
    }
  }

  /** A word followed by nothing or by whitespace is the first token. */
  lemma WordThen(w: string, s: string)
    requires IsWord(w) && (s == [] || IsSpace(s[0]))
    ensures Tokens(w + s) == [w] + Tokens(s)
  {
    var u := w + s;
    assert u[..|w|] == w;
    if s == [] {
      assert u == w;
      WordTokens(w);
    } else {
      assert u[|w|] == s[0];
      WordLengthAt(u, |w|);
      assert u[|w|..] == s;
    }
  }

  /** A layout whose first gap is non-empty when a word follows starts with whitespace or is empty. */
  lemma LayoutStart(ws: seq<string>, gaps: seq<string>)
    requires |gaps| == |ws| + 1 && IsBlank(gaps[0]) && (ws != [] ==> gaps[0] != [])
    ensures var s := Layout(ws, gaps); s == [] || IsSpace(s[0])
  {
    if ws != [] {
      assert Layout(ws, gaps)[0] == gaps[0][0];
    }
  }

  /** str.split() recovers the words of any layout of them. */
  lemma {:induction false} TokensOfLayout(ws: seq<string>, gaps: seq<string>)
    requires forall i :: 0 <= i < |ws| ==> IsWord(ws[i])
    requires Separates(ws, gaps)
    ensures Tokens(Layout(ws, gaps)) == ws
  {
    if ws == [] {
      BlankTokens(gaps[0], []);
      assert gaps[0] + [] == gaps[0];
    } else {
      var rest := Layout(ws[1..], gaps[1..]);
      assert Separates(ws[1..], gaps[1..]) by {
        forall i | 0 < i < |ws[1..]| ensures gaps[1..][i] != [] {
          assert gaps[1..][i] == gaps[i + 1];
        }
      }
      TokensOfLayout(ws[1..], gaps[1..]);
      LayoutStart(ws[1..], gaps[1..]);
      WordThen(ws[0], rest);
      assert gaps[0] + ws[0] + rest == gaps[0] + (ws[0] + rest);
      BlankTokens(gaps[0], ws[0] + rest);
      assert [ws[0]] + ws[1..] == ws;
    }
  }

  /** Adding a whitespace character in front of a layout lengthens its first gap. */
  lemma LayoutConsGap(c: char, ws: seq<string>, g: seq<string>)
    requires |g| == |ws| + 1
    ensures Layout(ws, [[c] + g[0]] + g[1..]) == [c] + Layout(ws, g)
  {
    var gaps := [[c] + g[0]] + g[1..];
    assert gaps[1..] == g[1..];
  }

  /** Every line is a layout of its tokens, with its own whitespace runs as the gaps. */
  lemma {:induction false} LayoutOfTokens(s: string)
    ensures Separates(Tokens(s), GapsOf(s)) && Layout(Tokens(s), GapsOf(s)) == s
    decreases |s|
  {
    if s == [] {
    } else if IsSpace(s[0]) {
      var t := s[1..];
      LayoutOfTokens(t);
      var ts, g := Tokens(t), GapsOf(t);
      assert Tokens(s) == ts && GapsOf(s) == [[s[0]] + g[0]] + g[1..];
      LayoutConsGap(s[0], ts, g);
      SeparatesConsGap(s[0], ts, g);
      assert [s[0]] + t == s;
    } else {
      var n := WordLength(s);
      var t := s[n..];
      LayoutOfTokens(t);
      var ts, g := Tokens(t), GapsOf(t);
      assert Tokens(s) == [s[..n]] + ts && GapsOf(s) == [[]] + g;
      LayoutConsWord(s[..n], ts, g);
      SeparatesConsWord(s[..n], ts, g);
      assert s[..n] + t == s;
    }
  }

  /** A word in front of a layout, with an empty gap before it. */
  lemma LayoutConsWord(w: string, ws: seq<string>, g: seq<string>)
    requires |g| == |ws| + 1
    ensures Layout([w] + ws, [[]] + g) == w + Layout(ws, g)
  {
    var ws', g' := [w] + ws, [[]] + g;
    assert ws' != [] && ws'[0] == w && ws'[1..] == ws;
    assert g'[0] == [] && g'[1..] == g;
    calc {
      Layout(ws', g');
      g'[0] + ws'[0] + Layout(ws'[1..], g'[1..]);
      [] + w + Layout(ws, g);
      { assert [] + w == w; }
      w + Layout(ws, g);
    }
  }

  /** A longer first gap still separates. */
  lemma SeparatesConsGap(c: char, ws: seq<string>, g: seq<string>)
    requires IsSpace(c) && Separates(ws, g)
    ensures Separates(ws, [[c] + g[0]] + g[1..])
  {
    var first := [c] + g[0];
    assert IsBlank(g[0]);
    assert IsBlank(first) by {
      forall i | 0 <= i < |first| ensures IsSpace(first[i]) {
        if i > 0 { assert first[i] == g[0][i - 1]; }
      }
    }
    var gaps := [first] + g[1..];
    forall i | 0 < i < |gaps| ensures gaps[i] == g[i] {
    }
  }

  /** A word in front of separated words whose first gap is non-empty when a word follows. */
  lemma SeparatesConsWord(w: string, ws: seq<string>, g: seq<string>)
    requires Separates(ws, g) && (ws != [] ==> g[0] != [])
    ensures Separates([w] + ws, [[]] + g)
  {
    var gaps := [[]] + g;
    forall i | 0 < i < |gaps| ensures gaps[i] == g[i - 1] {
    }
  }

  /** str.split() returns ws exactly when the line is ws laid out with whitespace. */
  lemma TokensCharacterized(s: string, ws: seq<string>)
    ensures Tokens(s) == ws <==>
            (forall i :: 0 <= i < |ws| ==> IsWord(ws[i]))
            && exists gaps :: Separates(ws, gaps) && Layout(ws, gaps) == s
  {
    if Tokens(s) == ws {
      LayoutOfTokens(s);
      assert Separates(ws, GapsOf(s)) && Layout(ws, GapsOf(s)) == s;
    }
    if (forall i :: 0 <= i < |ws| ==> IsWord(ws[i])) && exists gaps :: Separates(ws, gaps) && Layout(ws, gaps) == s {
      var gaps :| Separates(ws, gaps) && Layout(ws, gaps) == s;
      TokensOfLayout(ws, gaps);
    }
  }

  /**
   * A printed coordinate parses back to the same cell, whatever whitespace
   * surrounds and separates the two numbers (a line from readlines() ends in "\n").
   */
  lemma CoordinateRoundTrip(p: Pos, gaps: seq<string>)
    requires Separates([Show(p.x), Show(p.y)], gaps)
    ensures ParseCoordinate(Layout([Show(p.x), Show(p.y)], gaps)) == Success(p)
  {
    ShowIsWord(p.x);
    ShowIsWord(p.y);
    TokensOfLayout([Show(p.x), Show(p.y)], gaps);
    ParseShow(p.x);
    ParseShow(p.y);
  }

  /** The line "3 4\n" as readlines() delivers it is the cell (3, 4). */
  lemma ReadLineExample()
    ensures ParseCoordinate("3 4\n") == Success(Pos(3, 4))
  {
    var gaps := ["", " ", "\n"];
    assert Show(3) == "3" && Show(4) == "4";
    assert Layout(["3", "4"], gaps) == "3 4\n";
    CoordinateRoundTrip(Pos(3, 4), gaps);
  }

  lemma ShowIsWord(n: int)
    ensures IsWord(Show(n))
  {
    if n < 0 {
      NatDigitsValue(-n);
      assert Show(n) == ['-'] + NatDigits(-n);
    } else {
      NatDigitsValue(n);
    }
  }

  /** A successful ParseAll yields one coordinate per line. */
  lemma ParseAllLength(lines: seq<string>)
    requires ParseAll(lines).Success?
    ensures |ParseAll(lines).value| == |lines|
  {
    ParseAllPointwise(lines);
  }

  /** The i-th coordinate of a successful ParseAll is the i-th line's. */
  lemma ParseAllAt(lines: seq<string>, i: nat)
    requires ParseAll(lines).Success? && i < |lines|
    ensures |ParseAll(lines).value| == |lines|
    ensures ParseCoordinate(lines[i]) == Success(ParseAll(lines).value[i])
  {
    ParseAllPointwise(lines);
  }

  /** A parsed level's walls split into the header's part and the later lines' part. */
  lemma LevelWallsSplit(level: seq<string>)
    requires ParseLevel(level).Success?
    ensures HeaderLevel(HeadLines(level)).Success? && ParseAll(RestLines(level)).Success?
    ensures ParseLevel(level).value.walls
            == HeaderLevel(HeadLines(level)).value.walls + ParseAll(RestLines(level)).value
    ensures |HeaderLevel(HeadLines(level)).value.walls|
            == if HeaderEnd(HeadLines(level)) < |HeadLines(level)| then 1 else 0
  {
  }

  /**
   * A parsed level's walls: the wall of the header's '=' line, if there is
   * one, followed by one wall per line from the third on, in file order.
   */
  lemma LevelWalls(level: seq<string>)
    requires ParseLevel(level).Success?
    ensures var walls, rest := ParseLevel(level).value.walls, RestLines(level);
            var hasHeader := HeaderEnd(HeadLines(level)) < |HeadLines(level)|;
            |walls| == |rest| + (if hasHeader then 1 else 0)
            && forall i :: 0 <= i < |rest| ==> ParseCoordinate(rest[i]) == Success(walls[|walls| - |rest| + i])
  {
    var rest := RestLines(level);
    LevelWallsSplit(level);
    ParseAllLength(rest);
    var walls := ParseLevel(level).value.walls;
    forall i | 0 <= i < |rest|
      ensures ParseCoordinate(rest[i]) == Success(walls[|walls| - |rest| + i])
    {
      LevelWallAt(level, i);
    }
  }

  /** The wall of the i-th line from the third on. */
  lemma LevelWallAt(level: seq<string>, i: nat)
    requires ParseLevel(level).Success? && i < |RestLines(level)|
    ensures var walls, rest := ParseLevel(level).value.walls, RestLines(level);
            |rest| <= |walls| && ParseCoordinate(rest[i]) == Success(walls[|walls| - |rest| + i])
  {
    var rest := RestLines(level);
    LevelWallsSplit(level);
    ParseAllAt(rest, i);
    var headWalls := HeaderLevel(HeadLines(level)).value.walls;
    var later := ParseAll(rest).value;
    var walls := ParseLevel(level).value.walls;
    assert walls[|headWalls| + i] == later[i];
  }

  /**
   * A parsed level's snake: the header lines before the first '=' line,
   * then the snake cell of that line; its direction is the lower-cased
   * middle part of that line, or "" when no '=' line exists.
   */
  lemma LevelSnakeAndDirection(level: seq<string>)
    requires ParseLevel(level).Success?
    ensures var l, header := ParseLevel(level).value, HeadLines(level);
            var k := HeaderEnd(header);
            |l.snake| == k + (if k < |header| then 1 else 0)
            && (forall i :: 0 <= i < k ==> ParseCoordinate(level[i]) == Success(l.snake[i]))
            && (k == |header| ==> l.direction == "")
            && (k < |header| ==> ParseHeader(level[k]) == Success(Header(l.snake[k], l.direction, l.walls[0])))
  {
    var header := HeadLines(level);
    var k := HeaderEnd(header);
    ParseAllPointwise(header[..k]);
    assert forall i :: 0 <= i < k ==> header[..k][i] == level[i];
    var plain := ParseAll(header[..k]).value;
    var l := ParseLevel(level).value;
    if k < |header| {
      var h := ParseHeader(header[k]).value;
      assert HeaderLevel(header) == Success(Level([h.wall], plain + [h.snake], h.direction));
      assert l.snake == plain + [h.snake] && l.walls[0] == h.wall;
    } else {
      assert HeaderLevel(header) == Success(Level([], plain, ""));
    }
  }

  /**
   * A level fails to parse exactly when a line it reads is malformed: a
   * header line before the first '=' line or a later line that is not two
   * integers, or an '=' line that is not "cell = direction = cell".
   */
  lemma LevelErrors(level: seq<string>)
    ensures var header, rest := HeadLines(level), RestLines(level);
            var k := HeaderEnd(header);
            ParseLevel(level).Failure? <==>
              (exists i :: 0 <= i < k && ParseCoordinate(level[i]).Failure?)
              || (k < |header| && ParseHeader(level[k]).Failure?)
              || (exists i :: 0 <= i < |rest| && ParseCoordinate(rest[i]).Failure?)
  {
    var header := HeadLines(level);
    var k := HeaderEnd(header);
    ParseAllPointwise(header[..k]);
    ParseAllPointwise(RestLines(level));
    assert forall i :: 0 <= i < k ==> header[..k][i] == level[i];
  }

  /**
   * An '=' line "x = d = w" is read as written: the direction is the
   * lower-cased middle part with any spaces around it kept.
   */
  lemma HeaderParts(x: string, d: string, w: string)
    requires '=' !in x && '=' !in d && '=' !in w
    requires ParseCoordinate(x).Success? && ParseCoordinate(w).Success?
    ensures '=' in x + "=" + d + "=" + w
    ensures ParseHeader(x + "=" + d + "=" + w)
            == Success(Header(ParseCoordinate(x).value, Lower(d), ParseCoordinate(w).value))
  {
    var line := x + "=" + d + "=" + w;
    assert line[|x|] == '=';
    assert JoinWith([x, d, w], '=') == line by {
      assert [x, d, w][1..] == [d, w];
      assert [d, w][1..] == [w];
      assert JoinWith([w], '=') == w;
      assert JoinWith([d, w], '=') == d + ['='] + w;
    }
    JoinSplit([x, d, w], '=');
  }

  /** Parts after the third are never read: "x = d = w = more" is the header "x = d = w". */
  lemma HeaderExtraParts(x: string, d: string, w: string, more: string)
    requires '=' !in x && '=' !in d && '=' !in w
    requires ParseCoordinate(x).Success? && ParseCoordinate(w).Success?
    ensures '=' in x + "=" + d + "=" + w + "=" + more
    ensures ParseHeader(x + "=" + d + "=" + w + "=" + more)
            == Success(Header(ParseCoordinate(x).value, Lower(d), ParseCoordinate(w).value))
  {
    var line := x + "=" + d + "=" + w + "=" + more;
    assert line[|x|] == '=';
    var tail2 := w + "=" + more;
    var tail1 := d + "=" + tail2;
    assert line == x + ['='] + tail1;
    assert tail1 == d + ['='] + tail2;
    assert tail2 == w + ['='] + more;
    SeparatorAfter(w, more, '=');
    SeparatorAfter(d, tail2, '=');
    SeparatorAfter(x, tail1, '=');
    var parts := SplitOn(line, '=');
    assert parts == [x] + ([d] + ([w] + SplitOn(more, '=')));
    assert parts[0] == x && parts[1] == d && parts[2] == w;
  }

  /** The four direction letters of a level file fold to the ones legal_move knows. */
  lemma LowerDirections()
    ensures Lower("L") == "l" && Lower("R") == "r" && Lower("U") == "u" && Lower("D") == "d"
    ensures Lower("l") == "l" && Lower("r") == "r" && Lower("u") == "u" && Lower("d") == "d"
  {
  }
}
