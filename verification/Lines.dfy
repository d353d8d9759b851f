/** A text file as its non-blank lines, the way `splitlines` and `strip` see it. */
module Lines {
  /** The characters `str.splitlines` breaks at. */
  predicate IsBreak(c: char) {
    c in {'\n', '\r', '\U{0B}', '\U{0C}', '\U{1C}', '\U{1D}', '\U{1E}', '\U{85}', '\U{2028}', '\U{2029}'}
  }

  /** The characters `str.strip` removes. */
  predicate IsSpace(c: char) {
    IsBreak(c) || c in {' ', '\t', '\U{1F}', '\U{A0}', '\U{1680}', '\U{202F}', '\U{205F}', '\U{3000}'}
    || '\U{2000}' <= c <= '\U{200A}'
  }

  predicate Blank(line: string) { forall i :: 0 <= i < |line| ==> IsSpace(line[i]) }

  predicate OneLine(line: string) { forall i :: 0 <= i < |line| ==> !IsBreak(line[i]) }

  /** The pieces of `c` followed by a text whose pieces are `rest`. */
  function WithFirst(c: char, rest: seq<string>): (r: seq<string>)
    requires rest != []
    ensures r != []
  {
    if IsBreak(c) then [""] + rest else [[c] + rest[0]] + rest[1..]
  }

  /** The text cut at every break. `\r\n` gives one more empty piece than `splitlines`, which is blank. */
  function Pieces(text: string): (r: seq<string>)
    ensures r != []
  {
    if text == "" then [""] else
      WithFirst(text[0], Pieces(text[1..]))
  }

  lemma WithFirstJoin(c: char, p: seq<string>, q: seq<string>)
    requires p != []
    ensures WithFirst(c, p + q) == WithFirst(c, p) + q
  {
    assert (p + q)[1..] == p[1..] + q;
    assert [""] + (p + q) == [""] + p + q;
  }

  function Solid(piece: string): seq<string> { if Blank(piece) then [] else [piece] }

  function NonBlank(pieces: seq<string>): seq<string> {
    if pieces == [] then [] else Solid(pieces[0]) + NonBlank(pieces[1..])
  }

  /** Every non-blank line, exactly as stored. */
  function LinesOf(text: string): seq<string> { NonBlank(Pieces(text)) }

  lemma {:induction false} PiecesJoin(a: string, b: string)
    ensures Pieces(a + "\n" + b) == Pieces(a) + Pieces(b)
  {
    var text := a + "\n" + b;
    if a == "" {
      assert text[1..] == b && text[0] == '\n';
    } else {
      PiecesJoin(a[1..], b);
      assert text[1..] == a[1..] + "\n" + b && text[0] == a[0];
      WithFirstJoin(a[0], Pieces(a[1..]), Pieces(b));
    }
  }

  lemma {:induction false} PiecesOfLine(line: string)
    requires OneLine(line)
    ensures Pieces(line) == [line]
  {
    if line != "" {
      PiecesOfLine(line[1..]);
      assert line == [line[0]] + line[1..];
    }
  }

  lemma Associate(a: seq<string>, b: seq<string>, c: seq<string>)
    ensures a + (b + c) == a + b + c
  {
  }

  lemma {:induction false} NonBlankJoin(p: seq<string>, q: seq<string>)
    ensures NonBlank(p + q) == NonBlank(p) + NonBlank(q)
  {
    if p == [] {
      assert p + q == q;
    } else {
      NonBlankJoin(p[1..], q);
      assert (p + q)[1..] == p[1..] + q && (p + q)[0] == p[0];
      Associate(Solid(p[0]), NonBlank(p[1..]), NonBlank(q));
    }
  }

  /** A line break separates the lines before it from those after. */
  lemma LinesJoin(a: string, b: string)
    ensures LinesOf(a + "\n" + b) == LinesOf(a) + LinesOf(b)
    ensures LinesOf("") == []
  {
    PiecesJoin(a, b);
    NonBlankJoin(Pieces(a), Pieces(b));
  }

  lemma LineAlone(line: string)
    requires OneLine(line) && !Blank(line)
    ensures LinesOf(line) == [line]
  {
    PiecesOfLine(line);
    assert NonBlank([line]) == Solid(line) + NonBlank([line][1..]);
  }

  lemma LinesEnded(a: string)
    ensures LinesOf(a + "\n") == LinesOf(a)
  {
    LinesJoin(a, "");
    assert a + "\n" + "" == a + "\n";
  }

  lemma LineEnded(line: string)
    requires OneLine(line) && !Blank(line)
    ensures LinesOf(line + "\n") == [line]
  {
    LineAlone(line);
    LinesEnded(line);
  }

  predicate Terminated(text: string) { text == "" || text[|text| - 1] == '\n' }

  /** Writing a line after a terminated text adds exactly that line. */
  lemma AppendLine(text: string, line: string)
    requires Terminated(text) && OneLine(line) && !Blank(line)
    ensures LinesOf(text + line + "\n") == LinesOf(text) + [line]
    ensures Terminated(text + line + "\n")
  {
    LineEnded(line);
    if text == "" {
      assert text + line + "\n" == line + "\n";
    } else {
      var a := text[..|text| - 1];
      assert text == a + "\n" && text + line + "\n" == a + "\n" + (line + "\n");
      LinesEnded(a);
      LinesJoin(a, line + "\n");
    }
  }

  /** The code points at which a text is cut. */
  lemma BreaksExactly(c: char)
    ensures IsBreak(c) <==> c as int in {10, 11, 12, 13, 28, 29, 30, 133, 8232, 8233}
  {
  }

  /** The code points of white space. */
  lemma SpacesExactly(c: char)
    ensures IsSpace(c) <==>
      c as int in {9, 10, 11, 12, 13, 28, 29, 30, 31, 32, 133, 160, 5760, 8232, 8233, 8239, 8287, 12288} ||
      8192 <= c as int <= 8202
  {
  }

  /** A line is stored as it stands when it is printable ASCII and not all spaces, as a row of JSON is. */
  lemma PrintableFits(line: string, k: nat)
    requires forall i :: 0 <= i < |line| ==> 32 <= line[i] as int <= 126
    ensures OneLine(line) && (k < |line| && line[k] != ' ' ==> !Blank(line))
  {
    forall i | 0 <= i < |line| ensures !IsBreak(line[i]) && (IsSpace(line[i]) ==> line[i] == ' ') {
      SpacesExactly(line[i]);
      BreaksExactly(line[i]);
    }
  }
}
