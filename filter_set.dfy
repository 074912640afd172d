/** Extraction of the user's filter set from the configuration document
    (`parse_filter_regexes` and its `ParseError`). */
module FilterSet {
  import opened Wrappers
  import opened TomlValue

  /** The only key of the configuration document that is read. */
  const FILTER_SET_KEY := "filter_set"

  /** `ParseError`: the two ways a well-formed TOML document can have the wrong shape. */
  datatype ParseError =
    | MissingFilterSet
    | UnknownType(value: Value)

  /** What `parse_filter_regexes` can fail with behind its `Box<dyn Error>`:
      the TOML parser's own error (kept as its message) or a `ParseError`. */
  datatype ConfigError =
    | Syntax(message: string)
    | Shape(cause: ParseError)

  /** Specification of the array step: the strings of `items` in order, or
      `UnknownType` of the first element that is not a string. */
  function Strings(items: seq<Value>): Result<seq<string>, ParseError>
  {
    if items == [] then Ok([])
    else if !items[0].Str? then Err(UnknownType(items[0]))
    else match Strings(items[1..])
      case Ok(rest) => Ok([items[0].text] + rest)
      case Err(e) => Err(e)
  }

  /** Specification of `parse_filter_regexes` on an already parsed root value. */
  function Extract(root: Value): Result<seq<string>, ParseError>
  {
    match root
    case Table(table) =>
      if FILTER_SET_KEY !in table then Err(MissingFilterSet)
      else (match table[FILTER_SET_KEY]
        case Array(items) => Strings(items)
        case other => Err(UnknownType(other)))
    case other => Err(UnknownType(other))
  }

  /** Every element of `items` is the string at the same index of `xs`. */
  predicate AllStrings(items: seq<Value>, xs: seq<string>)
  {
    |items| == |xs| && forall j | 0 <= j < |items| :: items[j] == Str(xs[j])
  }

  /** `k` is the index of the first element of `items` that is not a string. */
  predicate FirstNonString(items: seq<Value>, k: nat)
  {
    k < |items| && !items[k].Str? && forall j | 0 <= j < k :: items[j].Str?
  }

  /** The array step succeeds exactly with the element strings, in order. */
  lemma {:induction false} StringsOk(items: seq<Value>, xs: seq<string>)
    ensures Strings(items) == Ok(xs) <==> AllStrings(items, xs)
  {
    if items == [] || !items[0].Str? {
      return;
    }
    var head := items[0].text;
    assert items[0] == Str(head);
    match Strings(items[1..]) {
      case Err(e) =>
        if AllStrings(items, xs) {
          StringsOk(items[1..], xs[1..]);
          assert AllStrings(items[1..], xs[1..]) by {
            forall j | 0 <= j < |items| - 1 ensures items[1..][j] == Str(xs[1..][j]) {
              assert items[j + 1] == Str(xs[j + 1]);
            }
          }
        }
      case Ok(rest) =>
        StringsOk(items[1..], rest);
        if Strings(items) == Ok(xs) {
          assert xs == [head] + rest;
          forall j | 0 <= j < |items| ensures items[j] == Str(xs[j]) {
            if j > 0 { assert items[1..][j - 1] == Str(rest[j - 1]); }
          }
        }
        if AllStrings(items, xs) {
          StringsOk(items[1..], xs[1..]);
          assert AllStrings(items[1..], xs[1..]) by {
            forall j | 0 <= j < |items| - 1 ensures items[1..][j] == Str(xs[1..][j]) {
              assert items[j + 1] == Str(xs[j + 1]);
            }
          }
          assert xs == [head] + xs[1..];
        }
    }
  }

  /** The array step fails with the first non-string element and nothing else. */
  lemma {:induction false} StringsFirstBad(items: seq<Value>, k: nat)
    requires FirstNonString(items, k)
    ensures Strings(items) == Err(UnknownType(items[k]))
  {
    if k > 0 {
      assert FirstNonString(items[1..], k - 1) by {
        forall j | 0 <= j < k - 1 ensures items[1..][j].Str? {
          assert items[j + 1].Str?;
        }
      }
      StringsFirstBad(items[1..], k - 1);
    }
  }

  /** A failing array step always names the first non-string element. */
  lemma {:induction false} StringsErr(items: seq<Value>)
    requires Strings(items).Err?
    ensures exists k: nat :: FirstNonString(items, k) && Strings(items).error == UnknownType(items[k])
  {
    if items[0].Str? {
      StringsErr(items[1..]);
      var k: nat :| FirstNonString(items[1..], k) && Strings(items[1..]).error == UnknownType(items[1..][k]);
      assert FirstNonString(items, k + 1) by {
        forall j | 0 <= j < k + 1 ensures items[j].Str? {
          if j > 0 { assert items[j] == items[1..][j - 1]; }
        }
      }
    } else {
      assert FirstNonString(items, 0);
    }
  }

  /** On success the result has exactly the length of the `filter_set` array and
      holds its strings in order; and every such array succeeds. */
  lemma ExtractOk(root: Value, xs: seq<string>)
    ensures Extract(root) == Ok(xs) <==>
      root.Table? && FILTER_SET_KEY in root.entries &&
      root.entries[FILTER_SET_KEY].Array? &&
      AllStrings(root.entries[FILTER_SET_KEY].items, xs)
  {
    if root.Table? && FILTER_SET_KEY in root.entries && root.entries[FILTER_SET_KEY].Array? {
      StringsOk(root.entries[FILTER_SET_KEY].items, xs);
    }
  }

  /** A root that is not a table is reported as `UnknownType` of the root itself. */
  lemma ExtractNotTable(root: Value)
    requires !root.Table?
    ensures Extract(root) == Err(UnknownType(root))
  {
  }

  /** A table without `filter_set` is reported as `MissingFilterSet`, and
      `MissingFilterSet` is reported for nothing else. */
  lemma ExtractMissing(root: Value)
    ensures Extract(root) == Err(MissingFilterSet) <==>
      root.Table? && FILTER_SET_KEY !in root.entries
  {
    if root.Table? && FILTER_SET_KEY in root.entries && root.entries[FILTER_SET_KEY].Array? {
      var items := root.entries[FILTER_SET_KEY].items;
      if Strings(items).Err? {
        StringsErr(items);
      }
    }
  }

  /** A `filter_set` that is present but not an array is reported as `UnknownType` of it. */
  lemma ExtractNotArray(table: map<string, Value>)
    requires FILTER_SET_KEY in table && !table[FILTER_SET_KEY].Array?
    ensures Extract(Table(table)) == Err(UnknownType(table[FILTER_SET_KEY]))
  {
  }

  /** A non-string element is reported as `UnknownType` of the first such element,
      with no partial list. */
  lemma ExtractBadElement(table: map<string, Value>, k: nat)
    requires FILTER_SET_KEY in table && table[FILTER_SET_KEY].Array?
    requires FirstNonString(table[FILTER_SET_KEY].items, k)
    ensures Extract(Table(table)) == Err(UnknownType(table[FILTER_SET_KEY].items[k]))
  {
    StringsFirstBad(table[FILTER_SET_KEY].items, k);
  }

  /** Keys other than `filter_set` never affect the outcome. */
  lemma ExtractIgnoresOtherKeys(t1: map<string, Value>, t2: map<string, Value>)
    requires FILTER_SET_KEY in t1 <==> FILTER_SET_KEY in t2
    requires FILTER_SET_KEY in t1 ==> t1[FILTER_SET_KEY] == t2[FILTER_SET_KEY]
    ensures Extract(Table(t1)) == Extract(Table(t2))
  {
  }

  /** The unit test's document `filter_set = [ "^haskell-", "^php\\d?-?" ]`
      gives exactly its two patterns, in order. */
  lemma ExtractTestDocument()
    ensures Extract(Table(map[FILTER_SET_KEY := Array([Str("^haskell-"), Str("^php\\d?-?")])]))
         == Ok(["^haskell-", "^php\\d?-?"])
  {
    var items := [Str("^haskell-"), Str("^php\\d?-?")];
    assert items[1..][1..] == [];
    assert ["^php\\d?-?"] + [] == ["^php\\d?-?"];
    assert Strings(items[1..]) == Ok(["^php\\d?-?"]);
    assert ["^haskell-"] + ["^php\\d?-?"] == ["^haskell-", "^php\\d?-?"];
  }

  /** `parse_filter_regexes`: the TOML syntax error is passed on unchanged; on a
      parsed tree the root must be a table whose `filter_set` is an array of
      strings, which are collected in order, failing on the first bad element. */
  method ParseFilterRegexes(parsed: Result<Value, string>) returns (r: Result<seq<string>, ConfigError>)
    ensures parsed.Err? ==> r == Err(Syntax(parsed.error))
    ensures parsed.Ok? ==> match Extract(parsed.value)
      case Ok(xs) => r == Ok(xs)
      case Err(e) => r == Err(Shape(e))
  {
    if parsed.Err? {
      return Err(Syntax(parsed.error));
    }
    var value := parsed.value;
    var result: seq<string> := [];
    match value {
      case Table(table) =>
        if FILTER_SET_KEY !in table {
          return Err(Shape(MissingFilterSet));
        }
        match table[FILTER_SET_KEY] {
          case Array(elems) =>
            for i := 0 to |elems|
              invariant AllStrings(elems[..i], result)
            {
              match elems[i] {
                case Str(s) =>
                  result := result + [s];
                case other =>
                  assert FirstNonString(elems, i) by {
                    forall j | 0 <= j < i ensures elems[j].Str? {
                      assert elems[..i][j] == elems[j];
                    }
                  }
                  StringsFirstBad(elems, i);
                  return Err(Shape(UnknownType(other)));
              }
            }
            assert elems[..|elems|] == elems;
            StringsOk(elems, result);
          case other =>
            return Err(Shape(UnknownType(other)));
        }
      case other =>
        return Err(Shape(UnknownType(other)));
    }
    return Ok(result);
  }
}
