/**
  Row reversal of a TabSeparatedWithNames body: the header line stays, the data
  lines come out in the opposite order.
 */
module Tsv {
  import opened Common
  import opened Pieces

  const NEWLINE: Byte := 10

  type Line = seq<Byte>

  function Split(body: seq<Byte>): seq<Line> {
    Pieces.Split(NEWLINE, body)
  }

  function Join(lines: seq<Line>): seq<Byte> {
    Pieces.Join([NEWLINE], lines)
  }

  predicate Terminated(body: seq<Byte>) {
    body != [] && body[|body| - 1] == NEWLINE
  }

  /** The lines of a body without the empty piece after a final newline. */
  function Lines(body: seq<Byte>): seq<Line> {
    var lines := Split(body);
    if lines[|lines| - 1] == [] then lines[..|lines| - 1] else lines
  }

  function ReversedRows(body: seq<Byte>): seq<Byte> {
    var lines := Lines(body);
    var core := if |lines| <= 1 then lines else [lines[0]] + Reverse(lines[1..]);
    Join(core) + (if Terminated(body) then [NEWLINE] else [])
  }

  /** A header and data rows as the server writes them. */
  function Render(header: Line, rows: seq<Line>): seq<Byte> {
    Pieces.Join([10], [header] + rows) + [10]
  }

  // -------------------------------------------------------------------- reversal

  function TotalLength(lines: seq<Line>): nat {
    if lines == [] then 0 else |lines[0]| + TotalLength(lines[1..])
  }

  lemma {:induction false} TotalSnoc(lines: seq<Line>, last: Line)
    ensures TotalLength(lines + [last]) == TotalLength(lines) + |last|
  {
    if lines != [] {
      TotalSnoc(lines[1..], last);
      assert (lines + [last])[1..] == lines[1..] + [last];
    }
  }

  lemma {:induction false} TotalReverse(lines: seq<Line>)
    ensures TotalLength(Reverse(lines)) == TotalLength(lines)
  {
    if lines != [] {
      TotalReverse(lines[1..]);
      TotalSnoc(Reverse(lines[1..]), lines[0]);
    }
  }

  lemma {:induction false} JoinLength(lines: seq<Line>)
    requires lines != []
    ensures |Join(lines)| == TotalLength(lines) + |lines| - 1
  {
    if |lines| > 1 {
      JoinLength(lines[1..]);
    }
  }

  /** A body is its lines joined again, with the final newline if it had one. */
  lemma BodyIsItsLines(body: seq<Byte>)
    ensures body == Join(Lines(body)) + (if Terminated(body) then [NEWLINE] else [])
    ensures Free(NEWLINE, Lines(body))
    ensures body != [] ==> Lines(body) != []
    ensures body != [] && !Terminated(body) ==> Lines(body)[|Lines(body)| - 1] != []
  {
    JoinSplit(NEWLINE, body);
    LastPiece(NEWLINE, body);
    var lines := Split(body);
    if lines[|lines| - 1] == [] {
      var init := lines[..|lines| - 1];
      assert init + [[]] == lines;
      if init != [] {
        JoinSnoc([NEWLINE], init, []);
      }
    }
  }

  /** Reversal never changes the length of a body, terminated or not. */
  lemma ReversalKeepsLength(body: seq<Byte>)
    ensures |ReversedRows(body)| == |body|
  {
    BodyIsItsLines(body);
    var lines := Lines(body);
    if |lines| > 1 {
      var core := [lines[0]] + Reverse(lines[1..]);
      JoinLength(lines);
      JoinLength(core);
      TotalReverse(lines[1..]);
      assert core[1..] == Reverse(lines[1..]);
    }
  }

  /** The lines of a joined list are that list, up to one empty last line. */
  lemma LinesOfTerminatedJoin(lines: seq<Line>)
    requires |lines| >= 1 && Free(NEWLINE, lines)
    ensures Lines(Join(lines) + [NEWLINE]) == lines
  {
    JoinSnoc([NEWLINE], lines, []);
    var more := lines + [[]];
    assert Join(more) == Join(lines) + [NEWLINE];
    SplitJoin(NEWLINE, more);
    assert more[..|lines|] == lines;
  }

  lemma LinesOfJoin(lines: seq<Line>)
    requires |lines| >= 1 && Free(NEWLINE, lines)
    ensures lines[|lines| - 1] != [] ==> Lines(Join(lines)) == lines && Join(lines) != [] && !Terminated(Join(lines))
    ensures lines[|lines| - 1] == [] && |lines| > 1 ==> Terminated(Join(lines))
  {
    SplitJoin(NEWLINE, lines);
    LastPiece(NEWLINE, Join(lines));
    if |lines| > 1 && lines[|lines| - 1] == [] {
      var init := lines[..|lines| - 1];
      JoinSnoc([NEWLINE], init, []);
      assert init + [[]] == lines;
    }
  }

  /** On a rendered table the header stays and exactly the data rows are reversed. */
  lemma ReversalOfTable(header: Line, rows: seq<Line>)
    requires Free(10, [header] + rows)
    ensures ReversedRows(Render(header, rows)) == Render(header, Reverse(rows))
    ensures Free(10, [header] + Reverse(rows))
  {
    LinesOfTerminatedJoin([header] + rows);
    assert ([header] + rows)[1..] == rows;
    forall k | 0 <= k < |rows| ensures NEWLINE !in rows[k] {
      assert ([header] + rows)[k + 1] == rows[k];
    }
    ReverseFree(NEWLINE, rows);
    if rows == [] {
      assert [header] + rows == [header] == [header] + Reverse(rows);
    }
  }

  /** Every newline-terminated body is such a table. */
  lemma TerminatedIsTable(body: seq<Byte>)
    requires Terminated(body)
    ensures Lines(body) != []
    ensures
      var lines := Lines(body);
      body == Render(lines[0], lines[1..]) && Free(NEWLINE, [lines[0]] + lines[1..])
  {
    BodyIsItsLines(body);
    assert [Lines(body)[0]] + Lines(body)[1..] == Lines(body);
  }

  /** The only bodies reversal cannot undo: unterminated, with an empty first data row. */
  predicate LosesItsEnd(body: seq<Byte>) {
    body != [] && !Terminated(body) && |Split(body)| > 1 && Split(body)[1] == []
  }

  /**
    Reversal is its own inverse on every newline-terminated body, and on every
    other body except those whose first data row is empty: that row moves to the
    end, where it reads as a final newline.
   */
  lemma ReversalIsInvolution(body: seq<Byte>)
    ensures ReversedRows(ReversedRows(body)) == body <==> !LosesItsEnd(body)
    ensures Terminated(body) ==> Terminated(ReversedRows(body))
  {
    BodyIsItsLines(body);
    var lines := Lines(body);
    if Terminated(body) {
      TerminatedIsTable(body);
      ReversalOfTable(lines[0], lines[1..]);
      ReversalOfTable(lines[0], Reverse(lines[1..]));
      ReverseTwice(lines[1..]);
    } else if |lines| > 1 {
      UnterminatedInvolution(body);
    } else {
      LastPiece(NEWLINE, body);
      assert ReversedRows(body) == body;
    }
  }

  lemma UnterminatedInvolution(body: seq<Byte>)
    requires body != [] && !Terminated(body) && |Lines(body)| > 1
    ensures ReversedRows(ReversedRows(body)) == body <==> !LosesItsEnd(body)
  {
    BodyIsItsLines(body);
    LastPiece(NEWLINE, body);
    var lines := Lines(body);
    assert lines == Split(body);
    var rows := lines[1..];
    var core := [lines[0]] + Reverse(rows);
    ReverseFree(NEWLINE, rows);
    ReverseAt(rows, |rows| - 1);
    assert core[|core| - 1] == lines[1];
    LinesOfJoin(core);
    assert ReversedRows(body) == Join(core);
    if lines[1] != [] {
      assert core[1..] == Reverse(rows);
      ReverseTwice(rows);
      assert [lines[0]] + rows == lines;
    } else {
      assert Terminated(Join(core));
      assert Terminated(ReversedRows(Join(core)));
    }
  }

  /** "h\\n\\nx" for example becomes "h\\nx\\n", which is its own reversal. */
  lemma EmptyRowIsLost()
    ensures
      var body: seq<Byte> := [104, 10, 10, 120];
      && LosesItsEnd(body)
      && ReversedRows(body) == [104, 10, 120, 10]
      && ReversedRows(ReversedRows(body)) == ReversedRows(body)
  {
    var h: Line, x: Line, none: Line := [104], [120], [];
    JoinThree(h, none, x);
    JoinThree(h, x, none);
    JoinTwo(h, x);
    var body: seq<Byte> := [104, NEWLINE, NEWLINE, 120];
    assert body == Join([h, none, x]);
    SplitJoin(NEWLINE, [h, none, x]);
    assert [h, none, x][1..] == [none, x];
    assert Reverse([none, x]) == [x, none];
    assert [h] + [x, none] == [h, x, none];
    assert ReversedRows(body) == Join([h, x, none]) == Render(h, [x]);
    ReversalOfTable(h, [x]);
    assert Reverse([x]) == [x];
  }

  lemma JoinTwo(a: Line, b: Line)
    ensures Join([a] + [b]) == a + [NEWLINE] + b
  {
    var lines := [a] + [b];
    assert lines[0] == a && lines[1..] == [b];
    assert Pieces.Join([NEWLINE], [b]) == b;
  }

  lemma JoinThree(a: Line, b: Line, c: Line)
    ensures Join([a, b, c]) == a + [NEWLINE] + (b + [NEWLINE] + c)
  {
    JoinTwo(b, c);
    var lines := [a, b, c];
    assert lines[0] == a && lines[1..] == [b] + [c];
  }

  // ---------------------------------------------------------------- the procedure

  /** The row reversal as it is carried out on a vector of lines and an output buffer. */
  method ReverseTsvRows(body: seq<Byte>) returns (out: seq<Byte>)
    ensures out == ReversedRows(body)
    ensures |out| == |body|
  {
    ReversalKeepsLength(body);
    if body == [] {
      return [];
    }
    BodyIsItsLines(body);
    LastPiece(NEWLINE, body);
    var lines := Split(body);
    var trailingEmpty := lines[|lines| - 1] == [];
    if trailingEmpty {
      lines := lines[..|lines| - 1];
    }
    if |lines| <= 1 {
      out := Join(lines);
      if trailingEmpty {
        out := out + [NEWLINE];
      }
      return;
    }
    out := JoinRows(lines[0], Reverse(lines[1..]));
    if trailingEmpty {
      out := out + [NEWLINE];
    }
  }

  /** The header and the rows pushed one after the other onto one buffer. */
  method JoinRows(header: Line, rows: seq<Line>) returns (out: seq<Byte>)
    requires rows != []
    ensures out == Join([header] + rows)
  {
    out := header + [NEWLINE];
    for i := 0 to |rows|
      invariant out == header + [NEWLINE] + Join(rows[..i])
    {
      assert rows[..i + 1] == rows[..i] + [rows[i]];
      if i > 0 {
        JoinSnoc([NEWLINE], rows[..i], rows[i]);
        out := out + [NEWLINE];
      }
      out := out + rows[i];
    }
    assert rows[..|rows|] == rows == ([header] + rows)[1..];
  }
}
