# arch-package-list-fetcher — a Dafny model of its filtering core

The program reads a TOML configuration holding a `filter_set` array of
regular expressions. It fetches the Arch Linux package feed and prints
`name version` for each feed item. An item is not printed when one of the
patterns matches its title, or when one of its categories contains
`Testing`.

This project models the two pieces of logic in `src/main.rs`:

- `wrappers.dfy` (`Wrappers`): `Option` and `Result`.
- `toml_value.dfy` (`TomlValue`): the parsed TOML value tree (`toml::Value`):
  string, integer, float, boolean, datetime, array and table.
- `filter_set.dfy` (`FilterSet`): `ParseError` and `parse_filter_regexes`.
  `ParseFilterRegexes` is the imperative loop, with `push` onto a growing
  sequence and an early return. It is proved equal to the specification
  function `Extract` (over the parsed root) and `Strings` (over the array).
  The properties of `parse_filter_regexes` are then proved as lemmas about
  those functions.
- `text.dfy` (`Text`): Rust's `str::contains` and `str::split(' ')`, as
  functions. `Split` keeps the empty pieces that adjacent spaces produce and
  always returns at least one piece. `Join` is its inverse.
- `feed.dfy` (`Feed`): the body of the item loop in `main` (`Classify`), and
  the loop itself. `PrintFeed` is a method proved equal to the fold `Process`.
  The outcome of one item is `Skip` (`continue`), `Emit(name, version)`
  (the `println!`), or `Malformed(title)`. `Malformed` stands for the
  out-of-bounds panic of `v[1]` on a title with no space, which ends the run;
  `Process` reports the lines printed before it.

The regular-expression set is a parameter `isMatch: string -> bool`, which
stands for `RegexSet::is_match` on the compiled `filter_set`. The TOML text
parser is a parameter too: `ParseFilterRegexes` takes the parser's outcome,
either a value tree or the parser's error message.

Details of the code that the model keeps as they are:

- A value of the wrong shape is reported as `UnknownType` carrying that value.
- The title is split on the single character `' '`, not on "whitespace". Only
  tokens 0 and 1 are used, and any further tokens are ignored.
- An item without a title gets the working title `unknown title`. That title
  has two tokens, so such an item is printed as `unknown` `title` and is not
  a malformed title (`Feed.MissingTitlePrinted`).
- The indexing fault is the code's panic. The model reports it as
  `Malformed`/`Report.panic` and stops the loop there; it does not turn it
  into a recoverable error.

## Model

| member | source | states |
|---|---|---|
| `FilterSet.ParseFilterRegexes` | src/main.rs:22-43 | A TOML syntax error is passed on as it is. On a parsed tree, the result is `Extract(root)`: the array's strings in order, or the shape error wrapped as a `ParseError`. |
| `FilterSet.StringsOk` | src/main.rs:28-35 | The array loop succeeds with `xs` if and only if the array has exactly as many elements as `xs` and element `i` is the string `xs[i]`. |
| `FilterSet.StringsFirstBad` | src/main.rs:29-33 | If the first non-string element is at index `k`, the array step fails with `UnknownType` of exactly that element. |
| `FilterSet.StringsErr` | src/main.rs:29-33 | Every failure of the array step is `UnknownType` of the first non-string element. No partial list is returned. |
| `FilterSet.ExtractOk` | src/main.rs:26-42 | Success with `xs` if and only if the root is a table, its `filter_set` is an array, and that array's elements are exactly the strings `xs`, in order and with the same length. |
| `FilterSet.ExtractNotTable` | src/main.rs:39 | A root that is not a table fails with `UnknownType` carrying the root value. |
| `FilterSet.ExtractMissing` | src/main.rs:27-37 | The result is `MissingFilterSet` if and only if the root is a table without the key `filter_set`. |
| `FilterSet.ExtractNotArray` | src/main.rs:36 | A `filter_set` value that is not an array fails with `UnknownType` carrying exactly that value. |
| `FilterSet.ExtractBadElement` | src/main.rs:28-32 | A `filter_set` array whose first non-string element is at `k` fails with `UnknownType` of that element. |
| `FilterSet.ExtractIgnoresOtherKeys` | src/main.rs:27 | Two tables that agree on `filter_set` (present in both with one value, or absent from both) give the same outcome, whatever their other keys hold. |
| `FilterSet.ExtractTestDocument` | src/main.rs:103-121 | The unit test's table `filter_set = [ "^haskell-", "^php\\d?-?" ]` yields exactly those two patterns, in order. |
| `Text.ContainsIff` | src/main.rs:74 | `Contains(s, sub)` holds if and only if `sub` occurs in `s` at some index. |
| `Text.Split` | src/main.rs:79 | `split(' ')` always yields at least one piece, and no piece contains the separator. |
| `Text.JoinSplit` | src/main.rs:79 | Joining the pieces of `Split(s)` with the separator gives back `s`, so no character is lost or reordered. |
| `Text.SplitJoin` | src/main.rs:79 | Splitting a join of separator-free pieces gives back exactly those pieces, empty ones included. |
| `Text.SplitHasSecond` | src/main.rs:79-80 | The split has a second piece (index 1 exists) if and only if the string contains the separator. |
| `Feed.FirstTwoPieces` | src/main.rs:79-80 | Pieces 0 and 1 of a title with two or more pieces are its leading pair: the title starts with `name`, one space, then `version`, followed by the end or another space. |
| `Feed.LeadingPairSplits` | src/main.rs:79-80 | Conversely, a leading pair of a title is exactly pieces 0 and 1 of its split. |
| `Feed.Classify` | src/main.rs:66-80 | The item is skipped if and only if a pattern matches its working title or a category name contains `Testing`. Otherwise it is malformed (carrying the title) if and only if the title has no space. Otherwise it is printed as the title's leading pair. |
| `Feed.ClassifyEmits` | src/main.rs:66-81 | An item that passes both filters and whose working title has the leading pair (`name`, `version`) is printed as exactly that pair. |
| `Feed.MissingTitlePrinted` | src/main.rs:66-80 | An item with no title that passes both filters is printed as (`unknown`, `title`). |
| `Feed.TestingCategorySkips` | src/main.rs:71-77 | Whatever its title and the patterns, an item in category `Testing` is skipped. So is an item in category `Testing Tools`, because containing the substring is enough. |
| `Feed.PrintFeed` | src/main.rs:65-82 | The loop's printed lines and its stop condition equal `Process`: items are handled in feed order, and the loop stops at the first malformed title. |
| `Feed.ProcessAppend` | src/main.rs:65-82 | The loop streams. Running it on `a + b` gives `a`'s report if `a` stopped on a malformed title; otherwise it gives `a`'s lines followed by `b`'s report. |
| `Feed.SkippedItemIrrelevant` | src/main.rs:67-77 | Removing a skipped item from the feed changes neither the output nor the panic. |
| `Feed.ProcessSound` | src/main.rs:65-81 | Every printed pair is the record that `Classify` emits for some item of the feed. |
| `Feed.ProcessComplete` | src/main.rs:65-81 | Conversely, every item that `Classify` emits before the first malformed item is printed. Its record is at the position equal to the number of emitted items in front of it. |
| `Feed.ProcessLineCount` | src/main.rs:65-82 | A feed with no malformed item prints exactly one line per emitted item. |
| `Feed.PrintedItemsPassFilters` | src/main.rs:65-81 | Every printed pair is the leading pair of the working title of an item that no pattern matches and that has no `Testing` category. |
| `Feed.ProcessPanics` | src/main.rs:79-80 | If the first malformed item is at `k`, the run ends with the panic on that item's title. |
| `Feed.ProcessCompletes` | src/main.rs:65-82 | A feed with no malformed item runs to the end without a panic. |
| `Feed.ThreeItemFeed` | src/main.rs:65-81 | Take a pattern set that matches `haskell-lens 5.0` and not `rust-clap 4.0`, and the feed [`haskell-lens 5.0`, `rust-clap 4.0`, `go-cobra 1.0` in `Testing`]. Exactly one pair is printed, (`rust-clap`, `4.0`), and there is no panic. |

## Left out

- TOML text parsing (`input.parse::<Value>()`) is a foreign library. The model takes its outcome, either a value tree or the error message, as input.
- Regular-expression compilation and matching (`RegexSet::new`, `is_match`) come from a foreign library. Matching is the parameter `isMatch`. A pattern that fails to compile is not modelled.
- Locating the configuration file through the XDG directories and reading it are filesystem I/O.
- The HTTP request and the `is_success` status check are network I/O. A non-success status prints nothing and exits with success, and that branch is not modelled.
- RSS parsing (`Channel::read_from`) is a foreign library. The feed is given as a sequence of `Feed.Item`.
- The colouring of the printed name and version, the printing of errors to standard error and the process exit codes are presentation and process I/O. A panic is reported in `Report.panic`, not as an exit status.
- `TomlValue.Value`: integers are unbounded (TOML's are 64-bit), floats are kept as their bit pattern, and datetimes as their text. None of these are inspected by the core.
- Strings are sequences of characters. The UTF-8 byte layout of Rust strings does not matter for `contains` and `split(' ')` on an ASCII pattern, so it is not modelled.
