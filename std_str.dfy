/** The three pieces of Rust's `str` that the line filters rely on:
    `contains` (substring search), `lines` (line splitting) and
    `to_lowercase` (here: ASCII case folding). Strings are `seq<char>`. */
module StdStr {

  /** `s` begins with `p`. */
  predicate StartsWith(s: string, p: string) {
    |p| <= |s| && s[..|p|] == p
  }

  /** `str::contains` with a string pattern: `q` occurs in `s` as a contiguous
      run of characters. The empty pattern occurs in every string. */
  predicate Contains(s: string, q: string)
    decreases |s|
  {
    StartsWith(s, q) || (s != [] && Contains(s[1..], q))
  }

  /** Reference definition: `q` occurs in `s` starting at position `i`. */
  ghost predicate OccursAt(s: string, q: string, i: int) {
    0 <= i && i + |q| <= |s| && s[i..i + |q|] == q
  }

  /** An occurrence at a known position is found by `Contains`. */
  lemma {:induction false} OccursContains(s: string, q: string, i: int)
    requires OccursAt(s, q, i)
    ensures Contains(s, q)
    decreases i
  {
    if i > 0 {
      assert s[1..][i - 1..i - 1 + |q|] == s[i..i + |q|];
      OccursContains(s[1..], q, i - 1);
    }
  }

  /** What `Contains` finds is an occurrence at some position. */
  lemma {:induction false} ContainsOccurs(s: string, q: string)
    requires Contains(s, q)
    ensures exists i :: OccursAt(s, q, i)
    decreases |s|
  {
    if StartsWith(s, q) {
      assert OccursAt(s, q, 0);
    } else {
      ContainsOccurs(s[1..], q);
      var j :| OccursAt(s[1..], q, j);
      assert s[1..][j..j + |q|] == s[j + 1..j + 1 + |q|];
      assert OccursAt(s, q, j + 1);
    }
  }

  /** `Contains` is exactly "there is a position where `q` occurs". */
  lemma ContainsIffOccurs(s: string, q: string)
    ensures Contains(s, q) <==> exists i :: OccursAt(s, q, i)
  {
    if Contains(s, q) {
      ContainsOccurs(s, q);
    }
    forall i | OccursAt(s, q, i) ensures Contains(s, q) {
      OccursContains(s, q, i);
    }
  }

  /** Every character of an occurring pattern is a character of the text. */
  lemma ContainsHasChar(s: string, q: string, j: int)
    requires 0 <= j < |q|
    ensures Contains(s, q) ==> q[j] in s
  {
    if Contains(s, q) {
      ContainsOccurs(s, q);
      var i :| OccursAt(s, q, i);
      assert s[i..i + |q|][j] == s[i + j];
    }
  }

  /** A leading stretch of text in which the pattern's first character does
      not appear cannot hold the start of an occurrence. */
  lemma {:induction false} ContainsSkipsPrefix(x: string, y: string, q: string)
    requires q != [] && q[0] !in x
    ensures Contains(x + y, q) ==> Contains(y, q)
    decreases |x|
  {
    if x != [] {
      assert x[0] in x;
      assert !StartsWith(x + y, q) by {
        assert (x + y)[0] == x[0];
      }
      assert (x + y)[1..] == x[1..] + y;
      ContainsSkipsPrefix(x[1..], y, q);
    } else {
      assert x + y == y;
    }
  }

  // ---------------------------------------------------------------------
  // Case folding

  /** ASCII lower-casing of one character; every other character is kept. */
  function LowerChar(c: char): char {
    if 'A' <= c <= 'Z' then (c as int - 'A' as int + 'a' as int) as char else c
  }

  /** ASCII upper-casing of one character; every other character is kept. */
  function UpperChar(c: char): char {
    if 'a' <= c <= 'z' then (c as int - 'a' as int + 'A' as int) as char else c
  }

  /** `str::to_lowercase`, restricted to ASCII folding character by character. */
  function Lower(s: string): (r: string) {
    seq(|s|, i requires 0 <= i < |s| => LowerChar(s[i]))
  }

  /** `str::to_uppercase`, restricted to ASCII folding character by character. */
  function Upper(s: string): (r: string) {
    seq(|s|, i requires 0 <= i < |s| => UpperChar(s[i]))
  }

  /** Folding is insensitive to the case the string was written in. */
  lemma LowerForgetsCase(s: string)
    ensures Lower(Upper(s)) == Lower(s)
    ensures Lower(Lower(s)) == Lower(s)
  {
    assert forall i | 0 <= i < |s| :: Lower(Upper(s))[i] == Lower(s)[i];
  }

  /** Lower-casing commutes with taking a slice. */
  lemma LowerSlice(s: string, a: nat, b: nat)
    requires a <= b <= |s|
    ensures Lower(s)[a..b] == Lower(s[a..b])
  {
  }

  /** A case-sensitive occurrence is also a case-insensitive one. */
  lemma {:induction false} ContainsLower(s: string, q: string)
    requires Contains(s, q)
    ensures Contains(Lower(s), Lower(q))
  {
    ContainsIffOccurs(s, q);
    var i :| OccursAt(s, q, i);
    LowerSlice(s, i, i + |q|);
    assert OccursAt(Lower(s), Lower(q), i);
    ContainsIffOccurs(Lower(s), Lower(q));
  }

  // ---------------------------------------------------------------------
  // Line splitting

  /** Index of the first `'\n'` in `s`, or `|s|` when there is none. */
  function LineEnd(s: string): (k: nat)
    ensures k <= |s|
    ensures k < |s| ==> s[k] == '\n'
    ensures forall j :: 0 <= j < k ==> s[j] != '\n'
    decreases |s|
  {
    if s == [] || s[0] == '\n' then 0 else 1 + LineEnd(s[1..])
  }

  /** Drops one `'\r'` from the end of a line, if it has one. */
  function TrimCR(line: string): string {
    if line != [] && line[|line| - 1] == '\r' then line[..|line| - 1] else line
  }

  /** `str::lines`: the pieces between `'\n'` characters, with a `'\r'` that
      stands just before the `'\n'` removed as well. The final line needs no
      terminator, a string that ends in `'\n'` has no empty last line, a bare
      `'\r'` at the very end is kept, and `""` has no lines at all. */
  function Lines(s: string): (ls: seq<string>)
    ensures forall line :: line in ls ==> '\n' !in line
    decreases |s|
  {
    if s == [] then []
    else
      var k := LineEnd(s);
      if k == |s| then [s]
      else [TrimCR(s[..k])] + Lines(s[k + 1..])
  }

  /** A line that `Lines` gives back unchanged once it is terminated by
      `'\n'`: it holds no `'\n'` and does not end in `'\r'`. */
  predicate PlainLine(line: string) {
    '\n' !in line && (line == [] || line[|line| - 1] != '\r')
  }

  /** A text that is one line without terminator is that line. */
  lemma LinesOfOneLine(line: string)
    requires line != [] && '\n' !in line
    ensures Lines(line) == [line]
  {
    assert LineEnd(line) == |line|;
  }

  /** A first line that holds no `'\n'` and does not end in `'\r'`, followed
      by `'\n'`, is split off as it is. */
  lemma LinesOfFirstLine(line: string, rest: string)
    requires PlainLine(line)
    ensures Lines(line + "\n" + rest) == [line] + Lines(rest)
  {
    var s := line + "\n" + rest;
    LineEndOf(line, rest);
    assert s[..|line|] == line;
    assert s[|line| + 1..] == rest;
  }

  /** Four lines joined by `'\n'` split back into those four lines. */
  lemma LinesOfFour(a: string, b: string, c: string, d: string)
    requires PlainLine(a) && PlainLine(b) && PlainLine(c)
    requires d != [] && '\n' !in d
    ensures Lines(a + "\n" + (b + "\n" + (c + "\n" + d))) == [a, b, c, d]
  {
    LinesOfOneLine(d);
    LinesOfFirstLine(c, d);
    LinesOfFirstLine(b, c + "\n" + d);
    LinesOfFirstLine(a, b + "\n" + (c + "\n" + d));
  }

  /** Each line followed by the terminator `t`, all concatenated. */
  function Terminated(ls: seq<string>, t: string): string {
    if ls == [] then [] else ls[0] + t + Terminated(ls[1..], t)
  }

  /** A line without `'\n'`, followed by `'\n'`, ends where that `'\n'` is. */
  lemma LineEndOf(line: string, rest: string)
    requires '\n' !in line
    ensures LineEnd(line + "\n" + rest) == |line|
  {
    var s := line + "\n" + rest;
    assert s[|line|] == '\n';
    assert forall j :: 0 <= j < |line| ==> s[j] == line[j];
  }

  /** Splitting undoes `'\n'`-terminated joining of lines that hold no
      `'\n'` and do not end in `'\r'`. */
  lemma {:induction false} LinesOfTerminated(ls: seq<string>)
    requires forall line :: line in ls ==> PlainLine(line)
    ensures Lines(Terminated(ls, "\n")) == ls
  {
    if ls != [] {
      assert ls[0] in ls;
      LinesOfFirstLine(ls[0], Terminated(ls[1..], "\n"));
      LinesOfTerminated(ls[1..]);
    }
  }

  /** Splitting undoes `"\r\n"`-terminated joining of lines that hold no `'\n'`. */
  lemma {:induction false} LinesOfCrlfTerminated(ls: seq<string>)
    requires forall line :: line in ls ==> '\n' !in line
    ensures Lines(Terminated(ls, "\r\n")) == ls
  {
    if ls != [] {
      var rest := Terminated(ls[1..], "\r\n");
      var withCR := ls[0] + "\r";
      assert ls[0] + "\r\n" + rest == withCR + "\n" + rest;
      var s := withCR + "\n" + rest;
      LineEndOf(withCR, rest);
      assert s[..|withCR|] == withCR;
      assert TrimCR(withCR) == ls[0];
      assert s[|withCR| + 1..] == rest;
      LinesOfCrlfTerminated(ls[1..]);
    }
  }

  /** Terminating the lines of a text that starts with a plain line. */
  lemma TerminatedOfFirstLine(line: string, rest: string)
    requires PlainLine(line)
    ensures Terminated(Lines(line + "\n" + rest), "\n") == line + "\n" + Terminated(Lines(rest), "\n")
  {
    LinesOfFirstLine(line, rest);
    var ls := [line] + Lines(rest);
    assert ls[0] == line && ls[1..] == Lines(rest);
  }

  /** The text rebuilt from its lines, with a `'\n'` added when it has no
      final one. */
  function Rebuilt(s: string): string {
    if s == [] || s[|s| - 1] == '\n' then s else s + "\n"
  }

  /** Rebuilding a text that starts with a line ending in `'\n'` rebuilds the
      rest after that line. */
  lemma RebuiltOfFirstLine(line: string, rest: string)
    ensures Rebuilt(line + "\n" + rest) == line + "\n" + Rebuilt(rest)
  {
    var s := line + "\n" + rest;
    if rest != [] {
      assert s[|s| - 1] == rest[|rest| - 1];
      assert line + "\n" + (rest + "\n") == s + "\n";
    }
  }

  /** For text without `'\r'`, terminating every line with `'\n'` gives the
      text back, plus a `'\n'` when its last line had none. */
  lemma {:induction false} TerminatedOfLines(s: string)
    requires '\r' !in s
    ensures Terminated(Lines(s), "\n") == Rebuilt(s)
    decreases |s|
  {
    if s != [] {
      var k := LineEnd(s);
      if k < |s| {
        var line, rest := s[..k], s[k + 1..];
        assert s == line + "\n" + rest;
        assert '\r' !in line && '\r' !in rest;
        TerminatedOfFirstLine(line, rest);
        TerminatedOfLines(rest);
        RebuiltOfFirstLine(line, rest);
      } else {
        assert Lines(s) == [s];
        assert s[|s| - 1] != '\n';
      }
    }
  }
}
