# minigrep core in Dafny

A model of the library half of `minigrep`, a small Rust `grep`: the two line
filters (`search`, `search_case_insensitive`) and the configuration logic
(`Args::new`, `Args::config_args`, `Config::build`), all from `src/lib.rs`.

- `std_str.dfy` (module `StdStr`) models the three pieces of Rust's `str`
  the filters call: `contains` as substring search (`Contains`, with the
  positional reference definition `OccursAt`), `lines` (`Lines`), and
  `to_lowercase` as ASCII case folding (`Lower`; `Upper` is its partner,
  used to state case symmetry).
- `sequences.dfy` (module `Sequences`) defines `Filter`, the order-preserving
  selection both filters are proved against, and `IsSubsequence`.
- `search.dfy` (module `LineFilter`) holds the two filters as methods whose
  `for` loops push matching lines onto a result sequence, exactly as the
  Rust loops push onto a `Vec`. Each is proved equal to
  `Filter(Lines(contents), test)`. Lemmas then state what that means:
  exactly the matching lines, in file order, each duplicate kept.
- `config.dfy` (module `Configuration`) holds `Args` as a class whose
  `ConfigArgs` loop updates its two fields in place, and `Config.Build`.
  Both are tied to pure functions: `Scan` folds the tokens and `Resolve`
  gives the whole build result.

The process environment is a parameter: `envSet` stands for
`env::var("IGNORE_CASE").is_ok()`, that is, `IGNORE_CASE` is present and its
value is valid Unicode. The content of that value is otherwise ignored.

Behaviour of `src/lib.rs` worth knowing:
- The argument vector includes the program name. `Config::build` needs at
  least three tokens, and the query and file path are tokens 1 and 2.
- There is one error, "not enough arguments". It does not say which
  argument is missing.
- The flag scan covers every token, including the program name and both
  positionals. A query spelled `--ignore-case` therefore also switches
  case-insensitivity on (`QueryLikeFlagTurnsOnIgnoreCase`).
- An empty query or file path is accepted.

`Lines` follows the current Rust `str::lines`. It splits after each `'\n'`
and drops a `'\r'` only when it stands right before that `'\n'`. A bare
`'\r'` at the very end of the text is kept.

## Model

| member | source | states |
|---|---|---|
| `LineFilter.Search` | src/lib.rs:94-104 | the loop returns exactly `Filter(Lines(contents), line contains query)`: the lines are visited in order and a line is pushed iff it contains the query |
| `LineFilter.SearchCaseInsensitive` | src/lib.rs:106-117 | the query is lowered once; the loop returns exactly `Filter(Lines(contents), Lower(line) contains Lower(query))`, pushing the original line |
| `LineFilter.SearchSelectsMatchingLines` | src/lib.rs:94-104 | a line is in the result iff it is a line of the contents and contains the query; the result is a subsequence of the lines (file order); each line occurs as often as in the contents if it matches, otherwise never |
| `LineFilter.SearchEmptyInputs` | src/lib.rs:97-100 | the empty query returns every line unchanged and in order; empty contents give an empty result |
| `LineFilter.SearchCaseInsensitiveSelectsMatchingLines` | src/lib.rs:106-117 | an original, unlowered line is in the result iff its lowered form contains the lowered query; order and multiplicities are those of the lines |
| `LineFilter.SearchCaseInsensitiveUsesLoweredQuery` | src/lib.rs:107-111 | two queries with the same lowered form give the same result |
| `LineFilter.SearchCaseInsensitiveIgnoresQueryCase` | src/lib.rs:107-111 | with ASCII folding, an upper-cased or a lowered query gives the same result as the query itself |
| `LineFilter.SearchWithinCaseInsensitive` | src/lib.rs:94-117 | with ASCII folding, the case-sensitive result is a subsequence of the case-insensitive one |
| `LineFilter.SearchExample` | src/lib.rs:124-132 | `search("duct", …)` on the test text returns only `"safe, fast, productive."` |
| `LineFilter.SearchCaseInsensitiveExample` | src/lib.rs:136-148 | `search_case_insensitive("rUsT", …)` on the test text returns `"Rust:"` and `"Trust me."` as written |
| `StdStr.ContainsIffOccurs` | src/lib.rs:98 | `Contains(s, q)` holds iff `q` equals the slice of `s` at some position |
| `StdStr.ContainsLower` | src/lib.rs:111 | a case-sensitive occurrence stays an occurrence after both sides are lowered |
| `StdStr.LowerForgetsCase` | src/lib.rs:107 | lowering an upper-cased or lowered string gives the string's own lowered form |
| `StdStr.Lines` | src/lib.rs:97 | no line produced by the split holds a `'\n'` |
| `StdStr.LinesOfTerminated` | src/lib.rs:97 | splitting `'\n'`-terminated lines without `'\n'` or a trailing `'\r'` gives those lines back; a final newline adds no empty line |
| `StdStr.LinesOfCrlfTerminated` | src/lib.rs:97 | splitting `"\r\n"`-terminated lines without `'\n'` gives those lines back, so the `'\r'` is removed |
| `StdStr.TerminatedOfLines` | src/lib.rs:97 | for text without `'\r'`, writing each line back with a `'\n'` rebuilds the text, plus a `'\n'` if the last line had none |
| `Configuration.Args.constructor` | src/lib.rs:16-21 | `ignore_case` starts as `envSet` (`env::var("IGNORE_CASE").is_ok()`), `save_output` starts off |
| `Configuration.Args.ConfigArgs` | src/lib.rs:23-35 | the new switches are the fold `Scan` of the old ones over all tokens; a switch is on iff it was on before or its flag is among the tokens |
| `Configuration.ScanSwitchesOn` | src/lib.rs:24-34 | after the scan a switch is on iff it started on or its flag occurs; flags never turn a switch off |
| `Configuration.ScanIgnoresOrder` | src/lib.rs:24-34 | two token lists with the same set of tokens give the same switches, whatever the order or repetition |
| `Configuration.ScanIgnoresOtherTokens` | src/lib.rs:24-34 | a token that is neither flag can be removed from anywhere without changing the switches |
| `Configuration.Config.Build` | src/lib.rs:45-61 | fails with "not enough arguments" iff there are fewer than 3 tokens; otherwise the query is token 1, the file path is token 2, `ignore_case` is env-or-flag, `save_output` is the flag; the result's value equals `Resolve` |
| `Configuration.ResolvePrecedence` | src/lib.rs:45-61 | a build from 3 or more tokens succeeds with `ignoreCase == (envSet or "--ignore-case" among the tokens)` and `saveOutput == ("--save-output" among the tokens)` |
| `Configuration.EnvironmentCannotBeOverridden` | src/lib.rs:16-28 | with `envSet` true every successful build is case-insensitive |
| `Configuration.QueryLikeFlagTurnsOnIgnoreCase` | src/lib.rs:50-54 | a query equal to `--ignore-case` is kept as the query and also turns case-insensitivity on |

## Left out

- `run` (src/lib.rs:64-92) is I/O and is not modelled. It reads the file, prints each result and handles `output.txt`: `remove_file` (which propagates a not-found error), then one open, append and close per line. Its choice of filter by `ignore_case` is left out with it.
- The read of the process environment (`env::var("IGNORE_CASE")`) is replaced by the parameter `envSet`, which is `true` exactly when the variable is present with a valid Unicode value (a present but non-Unicode value makes `env::var` fail, so it counts as unset).
- Lower: models `str::to_lowercase` as ASCII folding, one character at a time. Unicode's context-dependent mappings (final sigma, characters that lower to several) are not modelled. The members that use the ASCII rule are `SearchCaseInsensitiveIgnoresQueryCase`, `SearchWithinCaseInsensitive`, `ContainsLower` with its helper `LowerSlice` (which needs a lowering that maps one character to one character), `LowerForgetsCase`, and `SearchCaseInsensitiveExample` with its helper `RustLinesLowered` (which compute lowered forms of the test texts; Unicode lowering agrees with ASCII folding on these all-ASCII texts). The other lemmas hold for any lowering applied to both the query and the lines.
- Results are values, not borrowed slices. The aliasing of the returned `&str` into `contents` is stated only as "every result is a line of `Lines(contents)`".
- `lines()` is an iterator; the model builds the whole `Lines(contents)` sequence before the loop, which gives the same lines in the same order.
- Strings are sequences of characters. UTF-8 bytes and the check that the file is valid UTF-8 are not modelled.
