/** The two line filters of src/lib.rs: `search` and `search_case_insensitive`.
    Each walks the lines of the contents in order and pushes the matching
    ones onto a result vector; the results are the original lines, never
    lowered copies. */
module LineFilter {
  import opened StdStr
  import opened Sequences

  /** The case-sensitive test: the line contains the query. */
  function ContainsQuery(query: string): string -> bool {
    line => Contains(line, query)
  }

  /** The case-insensitive test, given the already lowered query. */
  function ContainsLoweredQuery(loweredQuery: string): string -> bool {
    line => Contains(Lower(line), loweredQuery)
  }

  /** What `search` returns. */
  function SearchSpec(query: string, contents: string): seq<string> {
    Filter(Lines(contents), ContainsQuery(query))
  }

  /** What `search_case_insensitive` returns: only the lowered query is used. */
  function SearchCaseInsensitiveSpec(query: string, contents: string): seq<string> {
    Filter(Lines(contents), ContainsLoweredQuery(Lower(query)))
  }

  /** `search`: one pass over the lines, pushing each line that contains the query. */
  method Search(query: string, contents: string) returns (results: seq<string>)
    ensures results == SearchSpec(query, contents)
  {
    results := [];
    var lines := Lines(contents);
    ghost var keep := ContainsQuery(query);
    for i := 0 to |lines|
      invariant results == Filter(lines[..i], keep)
    {
      var line := lines[i];
      FilterSnoc(lines[..i], line, keep);
      assert lines[..i + 1] == lines[..i] + [line];
      if Contains(line, query) {
        results := results + [line];
      }
    }
    assert lines[..|lines|] == lines;
  }

  /** `search_case_insensitive`: the query is lowered once, then each line is
      lowered for the test while the original line is what gets pushed. */
  method SearchCaseInsensitive(query: string, contents: string) returns (results: seq<string>)
    ensures results == SearchCaseInsensitiveSpec(query, contents)
  {
    var loweredQuery := Lower(query);
    results := [];
    var lines := Lines(contents);
    ghost var keep := ContainsLoweredQuery(loweredQuery);
    for i := 0 to |lines|
      invariant results == Filter(lines[..i], keep)
    {
      var line := lines[i];
      FilterSnoc(lines[..i], line, keep);
      assert lines[..i + 1] == lines[..i] + [line];
      if Contains(Lower(line), loweredQuery) {
        results := results + [line];
      }
    }
    assert lines[..|lines|] == lines;
  }

  /** `search` returns exactly the lines that contain the query, in file
      order, each duplicate line as often as it occurs. */
  lemma SearchSelectsMatchingLines(query: string, contents: string)
    ensures forall line :: line in SearchSpec(query, contents) <==>
              line in Lines(contents) && Contains(line, query)
    ensures IsSubsequence(SearchSpec(query, contents), Lines(contents))
    ensures forall line :: multiset(SearchSpec(query, contents))[line] ==
              if Contains(line, query) then multiset(Lines(contents))[line] else 0
  {
    FilterMembers(Lines(contents), ContainsQuery(query));
    FilterIsSubsequence(Lines(contents), ContainsQuery(query));
    FilterCounts(Lines(contents), ContainsQuery(query));
  }

  /** The empty query matches every line; empty contents have no lines to match. */
  lemma SearchEmptyInputs(query: string, contents: string)
    ensures SearchSpec("", contents) == Lines(contents)
    ensures SearchSpec(query, "") == []
  {
    FilterKeepsAll(Lines(contents), ContainsQuery(""));
  }

  /** `search_case_insensitive` returns exactly the original lines whose
      lowered form contains the lowered query, in file order, duplicates kept. */
  lemma SearchCaseInsensitiveSelectsMatchingLines(query: string, contents: string)
    ensures forall line :: line in SearchCaseInsensitiveSpec(query, contents) <==>
              line in Lines(contents) && Contains(Lower(line), Lower(query))
    ensures IsSubsequence(SearchCaseInsensitiveSpec(query, contents), Lines(contents))
    ensures forall line :: multiset(SearchCaseInsensitiveSpec(query, contents))[line] ==
              if Contains(Lower(line), Lower(query)) then multiset(Lines(contents))[line] else 0
  {
    var p := ContainsLoweredQuery(Lower(query));
    FilterMembers(Lines(contents), p);
    FilterIsSubsequence(Lines(contents), p);
    FilterCounts(Lines(contents), p);
  }

  /** Only the lowered query matters: queries that lower to the same string
      select the same lines. This follows from how `SearchCaseInsensitive` is
      built: after lowering it once, the loop uses only `loweredQuery`. */
  lemma SearchCaseInsensitiveUsesLoweredQuery(query: string, query': string, contents: string)
    requires Lower(query) == Lower(query')
    ensures SearchCaseInsensitiveSpec(query, contents) == SearchCaseInsensitiveSpec(query', contents)
  {
  }

  /** With ASCII folding the case in which the query is written is irrelevant. */
  lemma SearchCaseInsensitiveIgnoresQueryCase(query: string, contents: string)
    ensures SearchCaseInsensitiveSpec(Upper(query), contents) == SearchCaseInsensitiveSpec(query, contents)
    ensures SearchCaseInsensitiveSpec(Lower(query), contents) == SearchCaseInsensitiveSpec(query, contents)
  {
    LowerForgetsCase(query);
  }

  /** With ASCII folding every case-sensitive match is also a case-insensitive
      one, and the two results keep the same relative order. */
  lemma SearchWithinCaseInsensitive(query: string, contents: string)
    ensures IsSubsequence(SearchSpec(query, contents), SearchCaseInsensitiveSpec(query, contents))
  {
    forall line | line in Lines(contents) && Contains(line, query)
      ensures Contains(Lower(line), Lower(query))
    {
      ContainsLower(line, query);
    }
    FilterWeaker(Lines(contents), ContainsQuery(query), ContainsLoweredQuery(Lower(query)));
  }

  /** Filtering four lines, spelled out. */
  lemma FilterOfFour(a: string, b: string, c: string, d: string, p: string -> bool)
    ensures Filter([a, b, c, d], p) ==
      (if p(a) then [a] else []) + (if p(b) then [b] else []) + (if p(c) then [c] else []) + (if p(d) then [d] else [])
  {
    FilterSnoc([], a, p);
    assert [] + [a] == [a];
    FilterSnoc([a], b, p);
    assert [a] + [b] == [a, b];
    FilterSnoc([a, b], c, p);
    assert [a, b] + [c] == [a, b, c];
    FilterSnoc([a, b, c], d, p);
    assert [a, b, c] + [d] == [a, b, c, d];
  }

  /** The lines of the first test text. */
  lemma DuctLines()
    ensures Lines("Rust:\n" + "safe, fast, productive.\n" + "Pick three.\n" + "Duct tape.")
            == ["Rust:", "safe, fast, productive.", "Pick three.", "Duct tape."]
  {
    var l1, l2, l3, l4 := "Rust:", "safe, fast, productive.", "Pick three.", "Duct tape.";
    assert "Rust:\n" + "safe, fast, productive.\n" + "Pick three.\n" + "Duct tape."
        == l1 + "\n" + (l2 + "\n" + (l3 + "\n" + l4));
    LinesOfFour(l1, l2, l3, l4);
  }

  /** The one line of the first test text that contains "duct". */
  lemma DuctInProductive()
    ensures Contains("safe, fast, productive.", "duct")
  {
    assert "safe, fast, productive."[15..19] == "duct";
    OccursContains("safe, fast, productive.", "duct", 15);
  }

  /** The lines of the first test text without "duct": none has a lower-case 'd'. */
  lemma DuctAbsences()
    ensures !Contains("Rust:", "duct") && !Contains("Pick three.", "duct") && !Contains("Duct tape.", "duct")
  {
    ContainsHasChar("Rust:", "duct", 0);
    ContainsHasChar("Pick three.", "duct", 0);
    ContainsHasChar("Duct tape.", "duct", 0);
  }

  /** The case-sensitive example from src/lib.rs's tests: only the line with
      a lower-case "duct" is returned. */
  lemma SearchExample()
    ensures SearchSpec("duct", "Rust:\n" + "safe, fast, productive.\n" + "Pick three.\n" + "Duct tape.")
            == ["safe, fast, productive."]
  {
    var l1, l2, l3, l4 := "Rust:", "safe, fast, productive.", "Pick three.", "Duct tape.";
    var p := ContainsQuery("duct");
    assert Lines("Rust:\n" + "safe, fast, productive.\n" + "Pick three.\n" + "Duct tape.") == [l1, l2, l3, l4] by {
      DuctLines();
    }
    assert p(l2) by { DuctInProductive(); }
    assert !p(l1) && !p(l3) && !p(l4) by { DuctAbsences(); }
    FilterOfFour(l1, l2, l3, l4, p);
  }

  /** The lines of the second test text. */
  lemma RustLines()
    ensures Lines("Rust:\n" + "safe, fast, productive.\n" + "Pick three.\n" + "Trust me.")
            == ["Rust:", "safe, fast, productive.", "Pick three.", "Trust me."]
  {
    var l1, l2, l3, l4 := "Rust:", "safe, fast, productive.", "Pick three.", "Trust me.";
    assert "Rust:\n" + "safe, fast, productive.\n" + "Pick three.\n" + "Trust me."
        == l1 + "\n" + (l2 + "\n" + (l3 + "\n" + l4));
    LinesOfFour(l1, l2, l3, l4);
  }

  /** "rust" does not occur in "roductive.": it does not start there, and
      the rest has no 'r'. */
  lemma ProductiveTailLacksRust()
    ensures !Contains("roductive.", "rust")
  {
    assert !StartsWith("roductive.", "rust") by {
      assert "roductive."[..4][1] == 'o';
    }
    assert "roductive."[1..] == "oductive.";
    ContainsHasChar("oductive.", "rust", 0);
  }

  /** "rust" does not occur in the one test line that has all of its letters:
      no 'r' comes before "roductive.". */
  lemma SafeLineLacksRust()
    ensures !Contains("safe, fast, productive.", "rust")
  {
    assert "safe, fast, productive." == "safe, fast, p" + "roductive.";
    ContainsSkipsPrefix("safe, fast, p", "roductive.", "rust");
    ProductiveTailLacksRust();
  }

  /** The lowered forms of the second test's query and lines. */
  lemma RustLinesLowered()
    ensures Lower("rUsT") == "rust" && Lower("Rust:") == "rust:"
    ensures Lower("safe, fast, productive.") == "safe, fast, productive."
    ensures Lower("Pick three.") == "pick three." && Lower("Trust me.") == "trust me."
  {
  }

  /** The lowered lines of the second test text that contain "rust". */
  lemma RustOccurrences()
    ensures Contains("rust:", "rust") && Contains("trust me.", "rust")
  {
    OccursContains("rust:", "rust", 0);
    OccursContains("trust me.", "rust", 1);
  }

  /** The lowered lines of the second test text that do not contain "rust". */
  lemma RustAbsences()
    ensures !Contains("safe, fast, productive.", "rust") && !Contains("pick three.", "rust")
  {
    SafeLineLacksRust();
    PickLineLacksRust();
  }

  /** "rust" does not occur in "pick three.", which has no 'u'. */
  lemma PickLineLacksRust()
    ensures !Contains("pick three.", "rust")
  {
    ContainsHasChar("pick three.", "rust", 1);
  }

  /** The case-insensitive example from src/lib.rs's tests: the lowered query
      "rust" is found in "Rust:" and in "Trust me.", which are returned as written. */
  lemma SearchCaseInsensitiveExample()
    ensures SearchCaseInsensitiveSpec("rUsT", "Rust:\n" + "safe, fast, productive.\n" + "Pick three.\n" + "Trust me.")
            == ["Rust:", "Trust me."]
  {
    var l1, l2, l3, l4 := "Rust:", "safe, fast, productive.", "Pick three.", "Trust me.";
    var p := ContainsLoweredQuery("rust");
    assert Lines("Rust:\n" + "safe, fast, productive.\n" + "Pick three.\n" + "Trust me.") == [l1, l2, l3, l4] by {
      RustLines();
    }
    assert Lower("rUsT") == "rust" by { RustLinesLowered(); }
    assert p(l1) && p(l4) by {
      RustLinesLowered();
      RustOccurrences();
    }
    assert !p(l2) && !p(l3) by {
      RustLinesLowered();
      RustAbsences();
    }
    FilterOfFour(l1, l2, l3, l4, p);
  }
}
