/** The body of the item loop in `main`: each feed item is skipped, printed
    as a (name, version) pair, or ends the run with an indexing panic. The
    regular-expression set is represented by its `is_match` decision alone. */
module Feed {
  import opened Wrappers
  import opened Text

  /** The working title used when an item has none. */
  const UNKNOWN_TITLE := "unknown title"

  /** The category substring that excludes an item. */
  const TESTING := "Testing"

  datatype Category = Category(name: string)

  /** An RSS item as far as the loop reads it. */
  datatype Item = Item(title: Option<string>, categories: seq<Category>)

  /** The pair printed for an item. */
  datatype Display = Display(name: string, version: string)

  /** What happens to one item: skipped by `continue`, printed, or the
      `v[1]` indexing fault on a title without a second token. */
  datatype Classification =
    | Skip
    | Emit(record: Display)
    | Malformed(title: string)

  /** What the loop leaves behind: the printed pairs in order, and the title
      whose indexing fault stopped the run, if one did. */
  datatype Report = Report(lines: seq<Display>, panic: Option<string>)

  /** `item.title().map_or("unknown title", |title| title)`. */
  function WorkingTitle(item: Item): string
  {
    match item.title
    case Some(title) => title
    case None => UNKNOWN_TITLE
  }

  /** Some category name contains `"Testing"`. */
  predicate HasTestingCategory(categories: seq<Category>)
  {
    exists k | 0 <= k < |categories| :: Contains(categories[k].name, TESTING)
  }

  /** `name` and `version` are the first two space-separated tokens of `title`:
      `title` starts with `name`, one space, `version`, and then either ends or
      goes on with another space. */
  predicate LeadingPair(title: string, name: string, version: string)
  {
    var n := |name| + 1 + |version|;
    ' ' !in name && ' ' !in version && n <= |title| &&
    title[..n] == name + " " + version && (n == |title| || title[n] == ' ')
  }

  /** The first two pieces of a split title are its leading pair. */
  lemma FirstTwoPieces(title: string)
    requires |Split(title, ' ')| >= 2
    ensures LeadingPair(title, Split(title, ' ')[0], Split(title, ' ')[1])
  {
    var pieces := Split(title, ' ');
    var rest := pieces[1..];
    JoinSplit(title, ' ');
    assert title == pieces[0] + " " + Join(rest, ' ');
    assert ' ' !in pieces[0] && ' ' !in pieces[1];
    var n := |pieces[0]| + 1 + |pieces[1]|;
    if |rest| == 1 {
      assert title == pieces[0] + " " + pieces[1];
      assert title[..n] == title;
    } else {
      assert Join(rest, ' ') == pieces[1] + " " + Join(rest[1..], ' ');
      assert title == (pieces[0] + " " + pieces[1]) + (" " + Join(rest[1..], ' '));
    }
  }

  /** A leading pair is exactly what the split yields as its first two pieces. */
  lemma LeadingPairSplits(title: string, name: string, version: string)
    requires LeadingPair(title, name, version)
    ensures |Split(title, ' ')| >= 2
    ensures Split(title, ' ')[0] == name && Split(title, ' ')[1] == version
  {
    var n := |name| + 1 + |version|;
    var tail := title[n..];
    assert title == name + ([' '] + (version + tail));
    SplitPrefix(name, [' '] + (version + tail), ' ');
    assert ([' '] + (version + tail))[1..] == version + tail;
    SplitPrefix(version, tail, ' ');
    assert Split(tail, ' ')[0] == "" by {
      if tail != [] {
        assert tail[0] == ' ';
      }
    }
    assert name + "" == name && version + "" == version;
  }

  /** One iteration of the item loop. */
  function Classify(item: Item, isMatch: string -> bool): (c: Classification)
    ensures c.Skip? <==> isMatch(WorkingTitle(item)) || HasTestingCategory(item.categories)
    ensures c.Malformed? <==> !c.Skip? && ' ' !in WorkingTitle(item)
    ensures c.Malformed? ==> c.title == WorkingTitle(item)
    ensures c.Emit? ==> LeadingPair(WorkingTitle(item), c.record.name, c.record.version)
  {
    var title := WorkingTitle(item);
    if isMatch(title) then Skip
    else if HasTestingCategory(item.categories) then Skip
    else
      var v := Split(title, ' ');
      SplitHasSecond(title, ' ');
      if |v| < 2 then Malformed(title)
      else
        FirstTwoPieces(title);
        Emit(Display(v[0], v[1]))
  }

  /** An item that passes both filters and has a leading pair is printed as
      exactly that pair. */
  lemma ClassifyEmits(item: Item, isMatch: string -> bool, name: string, version: string)
    requires !isMatch(WorkingTitle(item)) && !HasTestingCategory(item.categories)
    requires LeadingPair(WorkingTitle(item), name, version)
    ensures Classify(item, isMatch) == Emit(Display(name, version))
  {
    LeadingPairSplits(WorkingTitle(item), name, version);
  }

  /** An item without a title that passes both filters is printed as
      `unknown` `title`. */
  lemma MissingTitlePrinted(categories: seq<Category>, isMatch: string -> bool)
    requires !isMatch(UNKNOWN_TITLE) && !HasTestingCategory(categories)
    ensures Classify(Item(None, categories), isMatch) == Emit(Display("unknown", "title"))
  {
    assert UNKNOWN_TITLE[..13] == "unknown" + " " + "title";
    ClassifyEmits(Item(None, categories), isMatch, "unknown", "title");
  }

  /** A category named `Testing`, or one merely containing it such as
      `Testing Tools`, excludes the item whatever the patterns say. */
  lemma TestingCategorySkips(title: Option<string>, isMatch: string -> bool)
    ensures Classify(Item(title, [Category("Testing")]), isMatch) == Skip
    ensures Classify(Item(title, [Category("Testing Tools")]), isMatch) == Skip
  {
    var testing, tools := [Category("Testing")], [Category("Testing Tools")];
    assert "Testing Tools"[..|TESTING|] == TESTING;
    assert Contains(testing[0].name, TESTING) && Contains(tools[0].name, TESTING);
    assert HasTestingCategory(testing) && HasTestingCategory(tools);
  }

  /** The lines printed so far, put in front of what the rest of the loop reports. */
  function Prepend(lines: seq<Display>, later: Report): Report
  {
    Report(lines + later.lines, later.panic)
  }

  /** Specification of the whole item loop, item by item in feed order. */
  function Process(items: seq<Item>, isMatch: string -> bool): Report
  {
    if items == [] then Report([], None)
    else match Classify(items[0], isMatch)
      case Skip => Process(items[1..], isMatch)
      case Emit(d) => Prepend([d], Process(items[1..], isMatch))
      case Malformed(t) => Report([], Some(t))
  }

  /** The item loop of `main`: classify each item in turn, print the emitted
      pairs, and stop at the first title that has no second token. */
  method PrintFeed(items: seq<Item>, isMatch: string -> bool) returns (report: Report)
    ensures report == Process(items, isMatch)
  {
    var lines: seq<Display> := [];
    for i := 0 to |items|
      invariant Process(items, isMatch) == Prepend(lines, Process(items[i..], isMatch))
    {
      assert items[i..][1..] == items[i + 1..];
      match Classify(items[i], isMatch) {
        case Skip =>
        case Emit(d) =>
          assert lines + ([d] + Process(items[i + 1..], isMatch).lines)
              == (lines + [d]) + Process(items[i + 1..], isMatch).lines;
          lines := lines + [d];
        case Malformed(t) =>
          assert lines + [] == lines;
          return Report(lines, Some(t));
      }
    }
    assert items[|items|..] == [];
    assert lines + [] == lines;
    return Report(lines, None);
  }

  /** The loop streams: the feed `a + b` reports what `a` reports, followed, when
      `a` did not stop, by what `b` reports. */
  lemma {:induction false} ProcessAppend(a: seq<Item>, b: seq<Item>, isMatch: string -> bool)
    ensures Process(a + b, isMatch) ==
      if Process(a, isMatch).panic.Some? then Process(a, isMatch)
      else Prepend(Process(a, isMatch).lines, Process(b, isMatch))
  {
    if a == [] {
      assert a + b == b;
      assert [] + Process(b, isMatch).lines == Process(b, isMatch).lines;
    } else {
      assert (a + b)[0] == a[0] && (a + b)[1..] == a[1..] + b;
      ProcessAppend(a[1..], b, isMatch);
      match Classify(a[0], isMatch) {
        case Skip =>
        case Emit(d) =>
          if Process(a[1..], isMatch).panic.None? {
            assert [d] + (Process(a[1..], isMatch).lines + Process(b, isMatch).lines)
                == ([d] + Process(a[1..], isMatch).lines) + Process(b, isMatch).lines;
          }
        case Malformed(t) =>
      }
    }
  }

  /** A skipped item leaves no trace: removing it from the feed changes nothing. */
  lemma SkippedItemIrrelevant(items: seq<Item>, k: nat, isMatch: string -> bool)
    requires k < |items| && Classify(items[k], isMatch).Skip?
    ensures Process(items, isMatch) == Process(items[..k] + items[k + 1..], isMatch)
  {
    var front, rest := items[..k], items[k + 1..];
    var tail := items[k..];
    assert items == front + tail;
    assert tail[0] == items[k] && tail[1..] == rest;
    assert Process(tail, isMatch) == Process(rest, isMatch);
    ProcessAppend(front, tail, isMatch);
    ProcessAppend(front, rest, isMatch);
  }

  /** Every printed pair is the record of some item of the feed that passed both filters. */
  lemma {:induction false} ProcessSound(items: seq<Item>, isMatch: string -> bool, j: nat)
    requires j < |Process(items, isMatch).lines|
    ensures exists k :: 0 <= k < |items| && Classify(items[k], isMatch) == Emit(Process(items, isMatch).lines[j])
  {
    match Classify(items[0], isMatch) {
      case Skip =>
        ProcessSound(items[1..], isMatch, j);
        var k :| 0 <= k < |items[1..]| && Classify(items[1..][k], isMatch) == Emit(Process(items[1..], isMatch).lines[j]);
        assert items[1..][k] == items[k + 1];
      case Emit(d) =>
        if j > 0 {
          ProcessSound(items[1..], isMatch, j - 1);
          var k :| 0 <= k < |items[1..]| && Classify(items[1..][k], isMatch) == Emit(Process(items[1..], isMatch).lines[j - 1]);
          assert items[1..][k] == items[k + 1];
        }
      case Malformed(t) =>
    }
  }

  /** Nothing is printed for an item that a pattern matches or that is in a
      Testing category: each printed pair is the leading pair of the working
      title of an item that passed both filters. */
  lemma PrintedItemsPassFilters(items: seq<Item>, isMatch: string -> bool, j: nat)
    requires j < |Process(items, isMatch).lines|
    ensures exists k :: (0 <= k < |items| &&
      !isMatch(WorkingTitle(items[k])) && !HasTestingCategory(items[k].categories) &&
      LeadingPair(WorkingTitle(items[k]), Process(items, isMatch).lines[j].name,
                  Process(items, isMatch).lines[j].version))
  {
    ProcessSound(items, isMatch, j);
    var k :| 0 <= k < |items| && Classify(items[k], isMatch) == Emit(Process(items, isMatch).lines[j]);
    assert Classify(items[k], isMatch).Emit?;
  }

  /** The run stops exactly at the first malformed item, reporting its title. */
  lemma {:induction false} ProcessPanics(items: seq<Item>, isMatch: string -> bool, k: nat)
    requires k < |items| && Classify(items[k], isMatch).Malformed?
    requires forall j | 0 <= j < k :: !Classify(items[j], isMatch).Malformed?
    ensures Process(items, isMatch).panic == Some(Classify(items[k], isMatch).title)
  {
    if k > 0 {
      assert !Classify(items[0], isMatch).Malformed?;
      forall j | 0 <= j < k - 1 ensures !Classify(items[1..][j], isMatch).Malformed? {
        assert items[1..][j] == items[j + 1];
      }
      ProcessPanics(items[1..], isMatch, k - 1);
    }
  }

  /** A feed with no malformed item runs to the end. */
  lemma {:induction false} ProcessCompletes(items: seq<Item>, isMatch: string -> bool)
    requires forall j | 0 <= j < |items| :: !Classify(items[j], isMatch).Malformed?
    ensures Process(items, isMatch).panic == None
  {
    if items != [] {
      assert !Classify(items[0], isMatch).Malformed?;
      forall j | 0 <= j < |items| - 1 ensures !Classify(items[1..][j], isMatch).Malformed? {
        assert items[1..][j] == items[j + 1];
      }
      ProcessCompletes(items[1..], isMatch);
    }
  }

  /** The one item of the three-item feed below that passes both filters is printed. */
  lemma RustPackagePrinted(isMatch: string -> bool)
    requires !isMatch("rust-clap 4.0")
    ensures Classify(Item(Some("rust-clap 4.0"), []), isMatch) == Emit(Display("rust-clap", "4.0"))
  {
    assert !HasTestingCategory([]);
    assert "rust-clap 4.0"[..13] == "rust-clap" + " " + "4.0";
    ClassifyEmits(Item(Some("rust-clap 4.0"), []), isMatch, "rust-clap", "4.0");
  }

  /** The number of items of the feed that `Classify` emits. */
  function EmitCount(items: seq<Item>, isMatch: string -> bool): nat
  {
    if items == [] then 0
    else (if Classify(items[0], isMatch).Emit? then 1 else 0) + EmitCount(items[1..], isMatch)
  }

  /** A feed with no malformed item prints exactly one line per emitted item. */
  lemma {:induction false} ProcessLineCount(items: seq<Item>, isMatch: string -> bool)
    requires forall j | 0 <= j < |items| :: !Classify(items[j], isMatch).Malformed?
    ensures |Process(items, isMatch).lines| == EmitCount(items, isMatch)
  {
    if items != [] {
      assert !Classify(items[0], isMatch).Malformed?;
      forall j | 0 <= j < |items| - 1 ensures !Classify(items[1..][j], isMatch).Malformed? {
        assert items[1..][j] == items[j + 1];
      }
      ProcessLineCount(items[1..], isMatch);
    }
  }

  /** Every item emitted before the first malformed one is printed, at the
      position given by the number of emitted items in front of it. */
  lemma ProcessComplete(items: seq<Item>, isMatch: string -> bool, k: nat)
    requires k < |items| && Classify(items[k], isMatch).Emit?
    requires forall j | 0 <= j < k :: !Classify(items[j], isMatch).Malformed?
    ensures EmitCount(items[..k], isMatch) < |Process(items, isMatch).lines|
    ensures Process(items, isMatch).lines[EmitCount(items[..k], isMatch)] == Classify(items[k], isMatch).record
  {
    var front, tail := items[..k], items[k..];
    assert items == front + tail;
    forall j | 0 <= j < |front| ensures !Classify(front[j], isMatch).Malformed? {
      assert front[j] == items[j];
    }
    ProcessCompletes(front, isMatch);
    ProcessLineCount(front, isMatch);
    ProcessAppend(front, tail, isMatch);
    assert tail[0] == items[k];
    var later := Process(tail[1..], isMatch);
    assert Process(tail, isMatch) == Prepend([Classify(items[k], isMatch).record], later);
    assert Process(items, isMatch).lines
        == Process(front, isMatch).lines + ([Classify(items[k], isMatch).record] + later.lines);
  }

  /** A three-item feed under a pattern set that matches `haskell-lens 5.0` and
      not `rust-clap 4.0` (as `^haskell-` does): the `haskell-` package is
      filtered out, the one in a Testing category is skipped, and only
      `rust-clap 4.0` is printed. */
  lemma ThreeItemFeed(isMatch: string -> bool)
    requires isMatch("haskell-lens 5.0") && !isMatch("rust-clap 4.0")
    ensures Process([Item(Some("haskell-lens 5.0"), []),
                     Item(Some("rust-clap 4.0"), []),
                     Item(Some("go-cobra 1.0"), [Category("Testing")])], isMatch)
         == Report([Display("rust-clap", "4.0")], None)
  {
    var lens := Item(Some("haskell-lens 5.0"), []);
    var clap := Item(Some("rust-clap 4.0"), []);
    var cobra := Item(Some("go-cobra 1.0"), [Category("Testing")]);
    RustPackagePrinted(isMatch);
    TestingCategorySkips(Some("go-cobra 1.0"), isMatch);
    var d := Display("rust-clap", "4.0");
    assert [cobra][1..] == [];
    assert Process([cobra], isMatch) == Report([], None);
    assert [clap, cobra][1..] == [cobra];
    assert [d] + [] == [d];
    assert Process([clap, cobra], isMatch) == Report([d], None);
    assert [lens, clap, cobra][1..] == [clap, cobra];
  }
}
