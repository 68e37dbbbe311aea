/** Where CRLF-terminated lines and the empty line that closes a header block end, in
    terms of the delimiter searches of AsioModel (section 3 of RFC 7230: a header
    block is a sequence of lines each ended by CRLF, closed by an empty line). */
module Lines {
  import opened HttpTypes
  import opened AsioModel

  /** A line with content and no carriage return in it. */
  predicate PlainLine(l: string)
  {
    l != [] && '\r' !in l
  }

  predicate AllPlain(lines: seq<string>)
  {
    forall i :: 0 <= i < |lines| ==> PlainLine(lines[i])
  }

  /** The lines, each followed by CRLF. */
  function Join(lines: seq<string>): (s: string)
    ensures lines != [] ==> |s| >= |lines[0]| + 2
  {
    if lines == [] then [] else lines[0] + CRLF + Join(lines[1..])
  }

  /** A line followed by CRLF is ended by that CRLF exactly when no CRLF occurs inside
      it; a lone carriage return, even one just before the line's end, does not end it. */
  lemma LineEnd(l: string, rest: string)
    ensures FindEnd(l + CRLF + rest, CRLF) == Some(|l| + 2) <==> Absent(l, CRLF)
  {
    var s := l + CRLF + rest;
    if Absent(l, CRLF) {
      assert s[|l|..|l| + 2] == CRLF;
      forall j | 0 <= j < |l| + 2
        ensures !EndsAt(s, CRLF, j)
      {
        if 2 <= j <= |l| {
          assert s[j - 2..j] == l[j - 2..j];
          assert !EndsAt(l, CRLF, j);
        } else if 2 <= j {
          assert s[j - 2..j][1] == s[|l|] == '\r';
        }
      }
      FirstEndUnique(s, CRLF, |l| + 2);
    } else {
      var j :| 0 <= j <= |l| && EndsAt(l, CRLF, j);
      assert s[j - 2..j] == l[j - 2..j];
      assert EndsAt(s, CRLF, j);
    }
  }

  /** A line without a carriage return holds no CRLF. */
  lemma PlainHoldsNoLineBreak(l: string)
    requires '\r' !in l
    ensures Absent(l, CRLF)
  {
    forall j | 0 <= j <= |l|
      ensures !EndsAt(l, CRLF, j)
    {
      if 2 <= j {
        assert l[j - 2..j][0] == l[j - 2] != CRLF[0];
      }
    }
  }

  lemma BlankLineAt(s: string, j: int)
    requires EndsAt(s, BLANK_LINE, j)
    ensures s[j - 4] == '\r' && s[j - 3] == '\n' && s[j - 2] == '\r'
  {
    assert s[j - 4..j][0] == s[j - 4] && s[j - 4..j][1] == s[j - 3] && s[j - 4..j][2] == s[j - 2];
  }

  /** No empty line occurs inside a block of plain lines. */
  lemma {:induction false} NoBlankLineInside(lines: seq<string>, rest: string, j: int)
    requires lines != [] && AllPlain(lines)
    requires j < |Join(lines)| + 2
    ensures !EndsAt(Join(lines) + CRLF + rest, BLANK_LINE, j)
  {
    var l := lines[0];
    var s := Join(lines) + CRLF + rest;
    var s' := Join(lines[1..]) + CRLF + rest;
    assert Join(lines) == l + CRLF + Join(lines[1..]);
    assert s == l + CRLF + s';
    if EndsAt(s, BLANK_LINE, j) {
      BlankLineAt(s, j);
      if j <= |l| + 5 {
        assert false;
      } else {
        assert lines[1..] != [];
        assert AllPlain(lines[1..]);
        EndsAtShift(l + CRLF, s', BLANK_LINE, j);
        NoBlankLineInside(lines[1..], rest, j - |l| - 2);
        assert false;
      }
    }
  }

  /** A header block of plain lines is ended by its empty line. */
  lemma BlankLineEnd(lines: seq<string>, rest: string)
    requires lines != [] && AllPlain(lines)
    ensures FindEnd(Join(lines) + CRLF + rest, BLANK_LINE) == Some(|Join(lines)| + 2)
  {
    var s := Join(lines) + CRLF + rest;
    var k := |Join(lines)| + 2;
    forall j | 0 <= j < k
      ensures !EndsAt(s, BLANK_LINE, j)
    {
      NoBlankLineInside(lines, rest, j);
    }
    LastTwoOfJoin(lines);
    assert s[k - 4..k] == BLANK_LINE;
    FirstEndUnique(s, BLANK_LINE, k);
  }

  /** A non-empty block ends with CRLF. */
  lemma {:induction false} LastTwoOfJoin(lines: seq<string>)
    requires lines != []
    ensures Join(lines)[|Join(lines)| - 2..] == CRLF
  {
    if lines[1..] != [] {
      LastTwoOfJoin(lines[1..]);
      assert Join(lines) == lines[0] + CRLF + Join(lines[1..]);
    }
  }

  lemma EndsAtShift(a: seq<char>, b: seq<char>, d: seq<char>, j: int)
    requires |a| + |d| <= j
    ensures EndsAt(a + b, d, j) == EndsAt(b, d, j - |a|)
  {
    if j <= |a| + |b| {
      assert (a + b)[j - |d|..j] == b[j - |a| - |d|..j - |a|];
    }
  }
}
