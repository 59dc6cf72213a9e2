/**
 * `Input::lines` of aoc/src/input/mmap.rs: the file content is split at
 * every `\n`, one trailing `\r` is removed from each piece, and empty
 * pieces are dropped. The memory map and the UTF-8 conversion are not
 * modelled; the content is taken as a string.
 */
module InputLines {
  import opened Common

  /** `line.strip_suffix("\r").unwrap_or(line)` for each piece, then the non-empty ones, in order. */
  function KeepLines(pieces: seq<string>): (r: seq<string>)
    ensures |r| <= |pieces|
    ensures forall i :: 0 <= i < |r| ==> r[i] != [] && exists j :: 0 <= j < |pieces| && r[i] == StripCr(pieces[j])
  {
    if pieces == [] then []
    else
      var line := StripCr(pieces[0]);
      var rest := KeepLines(pieces[1..]);
      assert forall i :: 0 <= i < |rest| ==> exists j :: 0 <= j < |pieces| && rest[i] == StripCr(pieces[j]) by {
        forall i | 0 <= i < |rest| ensures exists j :: 0 <= j < |pieces| && rest[i] == StripCr(pieces[j]) {
          var j :| 0 <= j < |pieces[1..]| && rest[i] == StripCr(pieces[1..][j]);
          assert rest[i] == StripCr(pieces[j + 1]);
        }
      }
      if line == [] then rest else [line] + rest
  }

  /** `lines()` over the whole content. */
  function Lines(content: string): seq<string>
  {
    KeepLines(Split(content, "\n"))
  }

  /** The `\n`-separated segments of the content, before stripping and filtering. */
  function Segments(content: string): (r: seq<string>)
    ensures |r| >= 1
  {
    Split(content, "\n")
  }

  /**
   * The segments are the maximal `\n`-free pieces: none contains `\n`, and
   * joined with `\n` they give back the content.
   */
  lemma SegmentsAreMaximal(content: string)
    ensures forall i :: 0 <= i < |Segments(content)| ==> '\n' !in Segments(content)[i]
    ensures Join(Segments(content), "\n") == content
  {
    var ps := Segments(content);
    SplitPiecesFree(content, "\n");
    forall i | 0 <= i < |ps| ensures '\n' !in ps[i] {
      NoOccursNoChar(ps[i], '\n');
    }
    JoinSplit(content, "\n");
  }

  /** Any way of writing the content as `\n`-free pieces joined by `\n` is its segments. */
  lemma SegmentsUnique(content: string, pieces: seq<string>)
    requires |pieces| >= 1 && Join(pieces, "\n") == content
    requires forall i :: 0 <= i < |pieces| ==> '\n' !in pieces[i]
    ensures Segments(content) == pieces
  {
    SplitJoin(pieces, '\n');
  }

  /** Removing one `\r` leaves a `\n`-free segment `\n`-free. */
  lemma StripCrKeepsNoNewline(p: string)
    requires '\n' !in p
    ensures '\n' !in StripCr(p) && |StripCr(p)| <= |p|
  {
  }

  /** Every yielded line is non-empty and free of `\n`. */
  lemma {:induction false} LinesWellFormed(content: string)
    ensures forall i :: 0 <= i < |Lines(content)| ==>
      Lines(content)[i] != [] && '\n' !in Lines(content)[i]
  {
    var ps := Segments(content);
    SegmentsAreMaximal(content);
    var r := Lines(content);
    forall i | 0 <= i < |r| ensures r[i] != [] && '\n' !in r[i] {
      var j :| 0 <= j < |ps| && r[i] == StripCr(ps[j]);
      StripCrKeepsNoNewline(ps[j]);
    }
  }

  /** Lines that are non-empty and hold no `\n` or trailing `\r` come back unchanged after a join. */
  lemma {:induction false} KeepLinesOfLines(ls: seq<string>)
    requires forall i :: 0 <= i < |ls| ==> ls[i] != [] && ls[i][|ls[i]| - 1] != '\r'
    ensures KeepLines(ls) == ls
  {
    if ls != [] {
      KeepLinesOfLines(ls[1..]);
      assert [ls[0]] + ls[1..] == ls;
    }
  }

  /**
   * Joining non-empty lines that hold no `\n` and do not end in `\r` with
   * `\n` and reading them back with `lines()` gives the same lines.
   */
  lemma LinesOfJoin(ls: seq<string>)
    requires forall i :: 0 <= i < |ls| ==> ls[i] != [] && '\n' !in ls[i] && ls[i][|ls[i]| - 1] != '\r'
    ensures Lines(Join(ls, "\n")) == ls
  {
    if ls == [] {
      assert Split([], "\n") == [[]];
    } else {
      SplitJoin(ls, '\n');
      KeepLinesOfLines(ls);
    }
  }

  /** The lines of two runs of pieces are the lines of each, in order: `lines()` works piece by piece. */
  lemma {:induction false} KeepLinesAppend(a: seq<string>, b: seq<string>)
    ensures KeepLines(a + b) == KeepLines(a) + KeepLines(b)
    decreases |a|
  {
    if a == [] {
      assert a + b == b;
    } else {
      assert (a + b)[1..] == a[1..] + b;
      KeepLinesAppend(a[1..], b);
    }
  }

  /** One piece gives itself without its trailing `\r`, or nothing when that leaves it empty. */
  lemma KeepLinesOne(p: string)
    ensures KeepLines([p]) == if StripCr(p) == [] then [] else [StripCr(p)]
    ensures p == [] || p == "\r" <==> KeepLines([p]) == []
  {
  }

  /** The pieces of lines joined with `\r\n` when split at `\n`: each but the last keeps its `\r`. */
  function CrPieces(ls: seq<string>): (r: seq<string>)
    ensures |r| == |ls|
  {
    if |ls| <= 1 then ls else [ls[0] + "\r"] + CrPieces(ls[1..])
  }

  /** Each piece but the last is its line with `\r` added; the last is its line. */
  lemma {:induction false} CrPiecesAt(ls: seq<string>)
    ensures forall i :: 0 <= i < |ls| ==> CrPieces(ls)[i] == if i < |ls| - 1 then ls[i] + "\r" else ls[i]
  {
    if |ls| >= 2 {
      CrPiecesAt(ls[1..]);
      assert CrPieces(ls) == [ls[0] + "\r"] + CrPieces(ls[1..]);
    }
  }

  /** Joining with `\r\n` is joining the pieces that keep their `\r` with `\n`. */
  lemma {:induction false} JoinCrLf(ls: seq<string>)
    ensures Join(ls, "\r\n") == Join(CrPieces(ls), "\n")
  {
    if |ls| >= 2 {
      JoinCrLf(ls[1..]);
      var ps := CrPieces(ls);
      assert ps[1..] == CrPieces(ls[1..]);
      assert Join(ps, "\n") == (ls[0] + "\r") + "\n" + Join(ps[1..], "\n");
    }
  }

  /** Stripping the `\r` of each piece and keeping the non-empty ones gives the lines back. */
  lemma {:induction false} KeepLinesCr(ls: seq<string>)
    requires forall i :: 0 <= i < |ls| ==> ls[i] != [] && ls[i][|ls[i]| - 1] != '\r'
    ensures KeepLines(CrPieces(ls)) == ls
  {
    if |ls| >= 2 {
      var x := ls[0] + "\r";
      assert x[..|x| - 1] == ls[0];
      KeepLinesOne(x);
      KeepLinesCr(ls[1..]);
      KeepLinesCons(x, ls[0], CrPieces(ls[1..]), ls[1..]);
      assert CrPieces(ls) == [x] + CrPieces(ls[1..]);
      assert [ls[0]] + ls[1..] == ls;
    } else if |ls| == 1 {
      LastPieceKept(ls[0]);
      assert CrPieces(ls) == ls == [ls[0]];
    }
  }

  /** A piece that yields one line, before pieces that yield some lines, yields that line first. */
  lemma KeepLinesCons(x: string, line: string, rest: seq<string>, lines: seq<string>)
    requires KeepLines([x]) == [line] && KeepLines(rest) == lines
    ensures KeepLines([x] + rest) == [line] + lines
  {
    KeepLinesAppend([x], rest);
  }

  /** A non-empty piece without a trailing `\r` is kept as it is. */
  lemma LastPieceKept(p: string)
    requires p != [] && p[|p| - 1] != '\r'
    ensures KeepLines([p]) == [p]
  {
    KeepLinesOne(p);
  }

  /**
   * Windows line ends: joining non-empty lines that hold no `\n` and do
   * not end in `\r` with `\r\n` and reading them back with `lines()` gives
   * the same lines.
   */
  lemma LinesOfJoinCrLf(ls: seq<string>)
    requires forall i :: 0 <= i < |ls| ==> ls[i] != [] && '\n' !in ls[i] && ls[i][|ls[i]| - 1] != '\r'
    ensures Lines(Join(ls, "\r\n")) == ls
  {
    if ls == [] {
      assert Split([], "\n") == [[]];
    } else {
      var ps := CrPieces(ls);
      JoinCrLf(ls);
      CrPiecesAt(ls);
      SplitJoin(ps, '\n');
      KeepLinesCr(ls);
    }
  }

  /** `\n\n` occurs in `s`. */
  predicate HasBlankLine(s: string)
  {
    exists i :: 0 <= i < |s| - 1 && s[i] == '\n' && s[i + 1] == '\n'
  }

  /**
   * If two or more pieces joined by `\n` include an empty one, the result
   * starts or ends with `\n` or holds `\n\n`.
   */
  lemma {:induction false} EmptyPieceShows(ps: seq<string>)
    requires |ps| >= 2 && exists i :: 0 <= i < |ps| && ps[i] == []
    ensures var s := Join(ps, "\n");
      s != [] && (s[0] == '\n' || s[|s| - 1] == '\n' || HasBlankLine(s))
    decreases |ps|
  {
    var s := Join(ps, "\n");
    var tail := Join(ps[1..], "\n");
    assert s == ps[0] + "\n" + tail;
    if ps[0] == [] {
      assert s[0] == '\n';
    } else if |ps| == 2 {
      assert ps[1] == [] && tail == [];
      assert s[|s| - 1] == '\n';
    } else {
      var i :| 0 <= i < |ps| && ps[i] == [];
      assert ps[1..][i - 1] == [];
      EmptyPieceShows(ps[1..]);
      var k := |ps[0]|;
      if tail[0] == '\n' {
        assert s[k] == '\n' && s[k + 1] == '\n';
      } else if tail[|tail| - 1] == '\n' {
        assert s[|s| - 1] == tail[|tail| - 1];
      } else {
        var j :| 0 <= j < |tail| - 1 && tail[j] == '\n' && tail[j + 1] == '\n';
        assert s[k + 1 + j] == tail[j] && s[k + 2 + j] == tail[j + 1];
      }
    }
  }

  /**
   * For content without `\r`, without a leading or trailing `\n` and
   * without `\n\n`, joining the yielded lines with `\n` gives the content back.
   */
  lemma JoinLines(content: string)
    requires '\r' !in content
    requires content != [] ==> content[0] != '\n' && content[|content| - 1] != '\n'
    requires !HasBlankLine(content)
    ensures Join(Lines(content), "\n") == content
  {
    var ps := Segments(content);
    SegmentsAreMaximal(content);
    if content == [] {
      assert ps == [[]];
    } else {
      if exists i :: 0 <= i < |ps| && ps[i] == [] {
        if |ps| >= 2 {
          EmptyPieceShows(ps);
        } else {
          assert Join(ps, "\n") == ps[0];
        }
      }
      forall i | 0 <= i < |ps| ensures ps[i] != [] && ps[i][|ps[i]| - 1] != '\r' {
        assert ps[i] != [];
        JoinHolds(ps, i);
      }
      KeepLinesOfLines(ps);
    }
  }

  /** Each piece's characters occur in the join. */
  lemma {:induction false} JoinHolds(ps: seq<string>, i: nat)
    requires i < |ps|
    ensures forall c :: c in ps[i] ==> c in Join(ps, "\n")
    decreases |ps|
  {
    if |ps| > 1 {
      assert Join(ps, "\n") == ps[0] + "\n" + Join(ps[1..], "\n");
      if i > 0 {
        JoinHolds(ps[1..], i - 1);
      }
    }
  }
}
