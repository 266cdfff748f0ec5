/**
 * The command-line front end: `app.py get_tpl --name=value ...`.
 *
 * The parsed fields are a Python dict, whose iteration order is the order in
 * which keys were first inserted; they are modelled as a sequence of
 * (name, value) pairs with distinct names, where assigning to an existing name
 * replaces its value in place.
 */
module App {
  import opened Wrappers
  import opened Strings
  import opened Validators
  import opened Database

  /** A dict of field name to raw value, in insertion order. */
  type Fields = seq<(string, string)>

  // ------------------------------------------------------------ dict on pairs

  predicate HasKey(fields: Fields, k: string)
  {
    exists p :: 0 <= p < |fields| && fields[p].0 == k
  }

  predicate DistinctKeys(fields: Fields)
  {
    forall p, q :: 0 <= p < q < |fields| ==> fields[p].0 != fields[q].0
  }

  /** The position of key `k`, or -1 when the dict does not hold it. */
  function KeyIndex(fields: Fields, k: string): (i: int)
    ensures -1 <= i < |fields|
    ensures i >= 0 ==> fields[i].0 == k
    ensures i < 0 <==> !HasKey(fields, k)
  {
    if fields == [] then -1
    else if fields[|fields| - 1].0 == k then |fields| - 1
    else KeyIndex(fields[..|fields| - 1], k)
  }

  /** `fields[k] = v`: an existing key keeps its position and takes the new value; a new key goes last. */
  function Put(fields: Fields, k: string, v: string): Fields
  {
    var i := KeyIndex(fields, k);
    if i < 0 then fields + [(k, v)] else fields[i := (k, v)]
  }

  /** The dict as a Dafny map, for the lookup, which does not depend on order. */
  function ToMap(fields: Fields): map<string, string>
  {
    if fields == [] then map[]
    else ToMap(fields[..|fields| - 1])[fields[|fields| - 1].0 := fields[|fields| - 1].1]
  }

  /** A dict with distinct keys and its map hold the same keys and values. */
  lemma {:induction false} ToMapAgrees(fields: Fields)
    requires DistinctKeys(fields)
    ensures forall k :: k in ToMap(fields) <==> HasKey(fields, k)
    ensures forall p :: 0 <= p < |fields| ==> fields[p].0 in ToMap(fields) && ToMap(fields)[fields[p].0] == fields[p].1
  {
    if fields != [] {
      var init := fields[..|fields| - 1];
      assert DistinctKeys(init);
      ToMapAgrees(init);
      forall k ensures k in ToMap(fields) <==> HasKey(fields, k) {
        if HasKey(init, k) {
          var p :| 0 <= p < |init| && init[p].0 == k;
          assert fields[p].0 == k;
        }
        if HasKey(fields, k) && k != fields[|fields| - 1].0 {
          var p :| 0 <= p < |fields| && fields[p].0 == k;
          assert init[p].0 == k;
        }
      }
      forall p | 0 <= p < |fields| ensures fields[p].0 in ToMap(fields) && ToMap(fields)[fields[p].0] == fields[p].1 {
        if p < |init| {
          assert init[p] == fields[p];
        }
      }
    }
  }

  // --------------------------------------------------------- argument parsing

  /**
   * One argument: it must start with "--" and contain '=' after it; the name
   * is what lies between "--" and the first '=', the value everything after
   * that '='.
   */
  function SplitArgument(arg: string): (r: Option<(string, string)>)
    ensures r.Some? <==> StartsWith(arg, "--") && '=' in arg[2..]
    ensures r.Some? ==> arg == "--" + r.value.0 + "=" + r.value.1 && '=' !in r.value.0
  {
    if StartsWith(arg, "--") then
      var argPart := arg[2..];
      var eq := Find(argPart, '=', 0);
      if eq < 0 then None
      else
        assert arg == "--" + argPart[..eq] + "=" + argPart[eq + 1..] by {
          assert arg == arg[..2] + argPart;
          assert argPart == argPart[..eq] + [argPart[eq]] + argPart[eq + 1..];
        }
        assert forall i :: 0 <= i < eq ==> argPart[..eq][i] != '=';
        Some((argPart[..eq], argPart[eq + 1..]))
    else None
  }

  /** Round trip: any name without '=' and any value are split back out of "--name=value". */
  lemma SplitArgumentOfParts(name: string, value: string)
    requires '=' !in name
    ensures SplitArgument("--" + name + "=" + value) == Some((name, value))
  {
    var arg := "--" + name + "=" + value;
    assert arg[2..] == name + "=" + value;
    assert arg[2..][|name|] == '=';
    var r := SplitArgument(arg);
    var n, v := r.value.0, r.value.1;
    assert n == arg[2..2 + |n|] == name;
  }

  /** Argument `i` is well formed and names `k`. */
  predicate NamedAt(args: seq<string>, i: int, k: string)
  {
    0 <= i < |args| && SplitArgument(args[i]).Some? && SplitArgument(args[i]).value.0 == k
  }

  /** Dropping the last argument leaves which of the others name `k` unchanged. */
  lemma NamedInPrefix(args: seq<string>, k: string)
    requires args != []
    ensures forall j :: 0 <= j < |args| - 1 ==> (NamedAt(args[..|args| - 1], j, k) <==> NamedAt(args, j, k))
  {
    forall j | 0 <= j < |args| - 1 ensures args[..|args| - 1][j] == args[j] {
    }
  }

  /** The first argument that names `k`, or -1. */
  function FirstNamed(args: seq<string>, k: string): (i: int)
    ensures -1 <= i < |args|
    ensures i >= 0 ==> NamedAt(args, i, k) && forall j :: 0 <= j < i ==> !NamedAt(args, j, k)
    ensures i < 0 ==> forall j :: 0 <= j < |args| ==> !NamedAt(args, j, k)
  {
    if args == [] then -1
    else
      var init := args[..|args| - 1];
      NamedInPrefix(args, k);
      var f := FirstNamed(init, k);
      if f >= 0 then f
      else if NamedAt(args, |args| - 1, k) then |args| - 1
      else -1
  }

  /** The last argument that names `k`, or -1. */
  function LastNamed(args: seq<string>, k: string): (i: int)
    ensures -1 <= i < |args|
    ensures i >= 0 ==> NamedAt(args, i, k) && forall j :: i < j < |args| ==> !NamedAt(args, j, k)
    ensures i < 0 ==> forall j :: 0 <= j < |args| ==> !NamedAt(args, j, k)
  {
    if args == [] then -1
    else if NamedAt(args, |args| - 1, k) then |args| - 1
    else
      var init := args[..|args| - 1];
      NamedInPrefix(args, k);
      LastNamed(init, k)
  }

  /** The dict parse_arguments builds, one argument after another. */
  function Parsed(args: seq<string>): Fields
  {
    if args == [] then []
    else
      var fields := Parsed(args[..|args| - 1]);
      match SplitArgument(args[|args| - 1])
      case Some((name, value)) => Put(fields, name, value)
      case None => fields
  }

  /** The keys are exactly the names of the well-formed arguments. */
  ghost predicate KeysAreNames(args: seq<string>, fields: Fields)
  {
    forall k :: HasKey(fields, k) <==> LastNamed(args, k) >= 0
  }

  /** Each value is that of the last argument with its name. */
  ghost predicate ValuesAreLast(args: seq<string>, fields: Fields)
  {
    forall p :: 0 <= p < |fields| ==>
      LastNamed(args, fields[p].0) >= 0 &&
      fields[p].1 == SplitArgument(args[LastNamed(args, fields[p].0)]).value.1
  }

  /** Keys come in the order in which their names first appear. */
  ghost predicate KeysInFirstOrder(args: seq<string>, fields: Fields)
  {
    forall p, q :: 0 <= p < q < |fields| ==> FirstNamed(args, fields[p].0) < FirstNamed(args, fields[q].0)
  }

  /** What parse_arguments returns for `args`, as a Python dict. */
  ghost predicate IsParseOf(args: seq<string>, fields: Fields)
  {
    DistinctKeys(fields) && KeysAreNames(args, fields) && ValuesAreLast(args, fields) && KeysInFirstOrder(args, fields)
  }

  /** How the first and last arguments naming a key move when a well-formed argument is added. */
  lemma NamedStep(init: seq<string>, a: string, name: string)
    requires SplitArgument(a).Some? && SplitArgument(a).value.0 == name
    ensures forall j :: 0 <= j < |init| ==> (init + [a])[j] == init[j]
    ensures LastNamed(init + [a], name) == |init|
    ensures forall k :: k != name ==> LastNamed(init + [a], k) == LastNamed(init, k)
    ensures forall k :: FirstNamed(init, k) >= 0 ==> FirstNamed(init + [a], k) == FirstNamed(init, k)
    ensures FirstNamed(init, name) < 0 ==> FirstNamed(init + [a], name) == |init|
  {
    assert (init + [a])[..|init|] == init;
  }

  /** Assigning to a key the dict holds keeps the keys and their positions. */
  lemma PutExisting(fields: Fields, k: string, v: string)
    requires DistinctKeys(fields) && HasKey(fields, k)
    ensures Put(fields, k, v) == fields[KeyIndex(fields, k) := (k, v)]
    ensures |Put(fields, k, v)| == |fields|
    ensures forall p :: 0 <= p < |fields| ==> Put(fields, k, v)[p].0 == fields[p].0
    ensures forall p :: 0 <= p < |fields| && fields[p].0 != k ==> Put(fields, k, v)[p] == fields[p]
    ensures DistinctKeys(Put(fields, k, v))
    ensures forall k' :: HasKey(Put(fields, k, v), k') <==> HasKey(fields, k')
  {
    var r := Put(fields, k, v);
    forall k' ensures HasKey(r, k') <==> HasKey(fields, k') {
      if HasKey(fields, k') {
        var p :| 0 <= p < |fields| && fields[p].0 == k';
        assert r[p].0 == k';
      }
      if HasKey(r, k') {
        var p :| 0 <= p < |r| && r[p].0 == k';
        assert fields[p].0 == k';
      }
    }
  }

  /** Assigning to a new key appends it. */
  lemma PutNew(fields: Fields, k: string, v: string)
    requires DistinctKeys(fields) && !HasKey(fields, k)
    ensures Put(fields, k, v) == fields + [(k, v)]
    ensures DistinctKeys(Put(fields, k, v))
    ensures forall k' :: HasKey(Put(fields, k, v), k') <==> HasKey(fields, k') || k' == k
  {
    var r := Put(fields, k, v);
    forall k' ensures HasKey(r, k') <==> HasKey(fields, k') || k' == k {
      if HasKey(fields, k') {
        var p :| 0 <= p < |fields| && fields[p].0 == k';
        assert r[p].0 == k';
      }
      if HasKey(r, k') && k' != k {
        var p :| 0 <= p < |r| && r[p].0 == k';
        assert fields[p].0 == k';
      }
      if k' == k {
        assert r[|fields|].0 == k';
      }
    }
  }

  /** Some argument names `k` exactly when a last one does, and the first comes no later. */
  lemma FirstBeforeLast(args: seq<string>, k: string)
    ensures FirstNamed(args, k) >= 0 <==> LastNamed(args, k) >= 0
    ensures FirstNamed(args, k) <= LastNamed(args, k)
  {
  }

  /** Adding one argument leaves where the names of the keys first appear. */
  lemma KeysStayFirst(init: seq<string>, args: seq<string>, fields: Fields)
    requires KeysAreNames(init, fields)
    requires forall k :: FirstNamed(init, k) >= 0 ==> FirstNamed(args, k) == FirstNamed(init, k)
    ensures forall p :: 0 <= p < |fields| ==>
      0 <= FirstNamed(args, fields[p].0) == FirstNamed(init, fields[p].0) < |init|
  {
    forall p | 0 <= p < |fields|
      ensures 0 <= FirstNamed(args, fields[p].0) == FirstNamed(init, fields[p].0) < |init|
    {
      assert HasKey(fields, fields[p].0);
      FirstBeforeLast(init, fields[p].0);
    }
  }

  /** Keys that keep their positions and first appearances keep their order. */
  lemma SameKeysFirstOrder(init: seq<string>, args: seq<string>, fields: Fields, r: Fields)
    requires KeysInFirstOrder(init, fields)
    requires |r| == |fields| && forall p :: 0 <= p < |r| ==> r[p].0 == fields[p].0
    requires forall p :: 0 <= p < |fields| ==> FirstNamed(args, fields[p].0) == FirstNamed(init, fields[p].0)
    ensures KeysInFirstOrder(args, r)
  {
  }

  /** A key appended for a name that first appears last comes after all the others. */
  lemma AppendedFirstOrder(init: seq<string>, args: seq<string>, fields: Fields, name: string, value: string)
    requires KeysInFirstOrder(init, fields)
    requires forall p :: 0 <= p < |fields| ==> FirstNamed(args, fields[p].0) == FirstNamed(init, fields[p].0) < |init|
    requires FirstNamed(args, name) == |init|
    ensures KeysInFirstOrder(args, fields + [(name, value)])
  {
    var r := fields + [(name, value)];
    forall p, q | 0 <= p < q < |r| ensures FirstNamed(args, r[p].0) < FirstNamed(args, r[q].0) {
      assert r[p] == fields[p];
      if q < |fields| {
        assert r[q] == fields[q];
      }
    }
  }

  /** An argument that is not well formed changes nothing. */
  lemma ParseSkips(init: seq<string>, a: string, fields: Fields)
    requires IsParseOf(init, fields)
    requires SplitArgument(a).None?
    ensures IsParseOf(init + [a], fields)
  {
    var args := init + [a];
    assert args[..|init|] == init;
    forall k ensures LastNamed(args, k) == LastNamed(init, k) && FirstNamed(args, k) == FirstNamed(init, k) {
      assert !NamedAt(args, |init|, k);
    }
    assert forall j :: 0 <= j < |init| ==> args[j] == init[j];
  }

  /** A well-formed argument whose name is already a key replaces that key's value in place. */
  lemma ParseOverwrites(init: seq<string>, a: string, fields: Fields, name: string, value: string)
    requires IsParseOf(init, fields)
    requires SplitArgument(a) == Some((name, value))
    requires HasKey(fields, name)
    ensures IsParseOf(init + [a], Put(fields, name, value))
  {
    var args := init + [a];
    NamedStep(init, a, name);
    PutExisting(fields, name, value);
    var r := Put(fields, name, value);
    assert KeysAreNames(args, r);
    forall p | 0 <= p < |r|
      ensures LastNamed(args, r[p].0) >= 0 && r[p].1 == SplitArgument(args[LastNamed(args, r[p].0)]).value.1
    {
      if r[p].0 != name {
        assert r[p] == fields[p];
      }
    }
    KeysStayFirst(init, args, fields);
    SameKeysFirstOrder(init, args, fields, r);
  }

  /** A well-formed argument with a new name appends that name last. */
  lemma ParseAppends(init: seq<string>, a: string, fields: Fields, name: string, value: string)
    requires IsParseOf(init, fields)
    requires SplitArgument(a) == Some((name, value))
    requires !HasKey(fields, name)
    ensures IsParseOf(init + [a], Put(fields, name, value))
  {
    var args := init + [a];
    NamedStep(init, a, name);
    PutNew(fields, name, value);
    var r := Put(fields, name, value);
    assert KeysAreNames(args, r);
    forall p | 0 <= p < |r|
      ensures LastNamed(args, r[p].0) >= 0 && r[p].1 == SplitArgument(args[LastNamed(args, r[p].0)]).value.1
    {
      if p < |fields| {
        assert r[p] == fields[p] && HasKey(fields, r[p].0);
      }
    }
    KeysStayFirst(init, args, fields);
    AppendedFirstOrder(init, args, fields, name, value);
  }

  /** parse_arguments builds a dict with the meaning `IsParseOf` states. */
  lemma {:induction false} ParsedIsParse(args: seq<string>)
    ensures IsParseOf(args, Parsed(args))
  {
    if args != [] {
      var init, a := args[..|args| - 1], args[|args| - 1];
      ParsedIsParse(init);
      assert init + [a] == args;
      match SplitArgument(a)
      case None =>
        ParseSkips(init, a, Parsed(init));
      case Some((name, value)) =>
        if HasKey(Parsed(init), name) {
          ParseOverwrites(init, a, Parsed(init), name, value);
        } else {
          ParseAppends(init, a, Parsed(init), name, value);
        }
    }
  }

  /** The names of the parsed dict are exactly those of the well-formed arguments. */
  lemma ParsedKeys(args: seq<string>)
    ensures KeysAreNames(args, Parsed(args))
  {
    ParsedIsParse(args);
  }

  /** The dict is empty exactly when no argument is well formed. */
  lemma ParsedEmpty(args: seq<string>)
    ensures Parsed(args) == [] <==> forall i :: 0 <= i < |args| ==> SplitArgument(args[i]).None?
  {
    var r := Parsed(args);
    ParsedKeys(args);
    if r != [] {
      var k := r[0].0;
      assert HasKey(r, k);
      var i := LastNamed(args, k);
      assert SplitArgument(args[i]).Some?;
    } else {
      forall i | 0 <= i < |args| ensures SplitArgument(args[i]).None? {
        if SplitArgument(args[i]).Some? {
          var k := SplitArgument(args[i]).value.0;
          assert !HasKey(r, k);
          assert LastNamed(args, k) < 0;
          assert NamedAt(args, i, k);
          assert false;
        }
      }
    }
  }

  /** The command-line words "--name=value" that spell out the fields, in order. */
  function Arguments(fields: Fields): seq<string>
  {
    seq(|fields|, i requires 0 <= i < |fields| => "--" + fields[i].0 + "=" + fields[i].1)
  }

  /**
   * Round trip: spelling distinct names without '=' as "--name=value" words
   * and parsing them gives the same fields back, in the same order.
   */
  lemma {:induction false} ParseArgumentsRoundTrip(fields: Fields)
    requires DistinctKeys(fields)
    requires forall i :: 0 <= i < |fields| ==> '=' !in fields[i].0
    ensures Parsed(Arguments(fields)) == fields
  {
    if fields != [] {
      var init, last := fields[..|fields| - 1], fields[|fields| - 1];
      var args := Arguments(fields);
      assert args[..|args| - 1] == Arguments(init);
      assert DistinctKeys(init);
      ParseArgumentsRoundTrip(init);
      SplitArgumentOfParts(last.0, last.1);
      assert !HasKey(init, last.0) by {
        forall p | 0 <= p < |init| ensures init[p].0 != last.0 {
          assert init[p] == fields[p];
        }
      }
      PutNew(init, last.0, last.1);
      assert init + [last] == fields;
    }
  }

  /** parse_arguments */
  method ParseArguments(args: seq<string>) returns (fields: Fields)
    ensures fields == Parsed(args)
  {
    fields := [];
    for n := 0 to |args|
      invariant fields == Parsed(args[..n])
    {
      assert args[..n + 1][..n] == args[..n];
      var arg := args[n];
      if StartsWith(arg, "--") {
        var argPart := arg[2..];
        if '=' in argPart {
          var eq := Find(argPart, '=', 0);
          var fieldName, fieldValue := argPart[..eq], argPart[eq + 1..];
          fields := Put(fields, fieldName, fieldValue);
        } else {
          continue;
        }
      }
    }
    assert args[..|args|] == args;
  }

  // ---------------------------------------------------------------- rendering

  /** `{name: detect_field_type(value) for name, value in fields.items()}`, in the fields' order. */
  function DetectedTypes(fields: Fields): (typed: Fields)
    ensures |typed| == |fields|
    ensures forall i :: 0 <= i < |fields| ==> typed[i].0 == fields[i].0
    ensures forall i :: 0 <= i < |fields| ==> typed[i].1 in {"date", "phone", "email", "text"}
  {
    seq(|fields|, i requires 0 <= i < |fields| => (fields[i].0, DetectFieldType(fields[i].1)))
  }

  /** `f"  {name}: {ftype}"` */
  function TypeLine(field: (string, string)): string
  {
    "  " + field.0 + ": " + field.1
  }

  /** One report line per typed field, in order. */
  function TypeLines(typed: Fields): (lines: seq<string>)
    ensures |lines| == |typed|
    ensures forall i :: 0 <= i < |typed| ==> lines[i] == TypeLine(typed[i])
  {
    if typed == [] then []
    else
      var init := typed[..|typed| - 1];
      assert forall i :: 0 <= i < |init| ==> init[i] == typed[i];
      TypeLines(init) + [TypeLine(typed[|typed| - 1])]
  }

  /** The braces around the lines of the typed fields, one line per field. */
  function Render(typed: Fields): string
  {
    "{\n" + Join(",\n", TypeLines(typed)) + "\n}"
  }

  /** The report printed when no template matches: one `name: type` line per field. */
  function Report(fields: Fields): string
  {
    Render(DetectedTypes(fields))
  }

  /** The rendering in main's no-match branch: build the lines, then join them. */
  method RenderFieldTypes(fields: Fields) returns (result: string)
    ensures result == Report(fields)
  {
    var fieldTypes := seq(|fields|, i requires 0 <= i < |fields| => (fields[i].0, DetectFieldType(fields[i].1)));
    result := "{\n";
    var items: seq<string> := [];
    for n := 0 to |fieldTypes|
      invariant items == TypeLines(fieldTypes[..n])
    {
      var name, ftype := fieldTypes[n].0, fieldTypes[n].1;
      assert fieldTypes[..n + 1] == fieldTypes[..n] + [fieldTypes[n]];
      items := items + ["  " + name + ": " + ftype];
    }
    assert fieldTypes[..|fieldTypes|] == fieldTypes == DetectedTypes(fields);
    result := result + Join(",\n", items);
    result := result + "\n}";
    assert result == Render(fieldTypes);
  }

  /** Joined lines without newlines of their own give one newline per separator. */
  lemma {:induction false} JoinNewlines(lines: seq<string>)
    requires |lines| > 0
    requires forall i :: 0 <= i < |lines| ==> Count(lines[i], '\n') == 0
    ensures Count(Join(",\n", lines), '\n') == |lines| - 1
  {
    if |lines| > 1 {
      var init := lines[..|lines| - 1];
      JoinNewlines(init);
      CountConcat(Join(",\n", init), ",\n", '\n');
      CountConcat(Join(",\n", init) + ",\n", lines[|lines| - 1], '\n');
      assert ",\n"[..1] == ",";
    }
  }

  /** A field line holds a newline only if the field's name does. */
  lemma TypeLineNewlines(field: (string, string))
    requires Count(field.0, '\n') == 0
    requires field.1 in {"date", "phone", "email", "text"}
    ensures Count(TypeLine(field), '\n') == 0
  {
    var t := field.1;
    CountAbsent(t, '\n');
    CountAbsent("  ", '\n');
    CountAbsent(": ", '\n');
    CountConcat("  ", field.0, '\n');
    CountConcat("  " + field.0, ": ", '\n');
    CountConcat("  " + field.0 + ": ", t, '\n');
  }

  /**
   * One line per field: when no field name holds a newline, the rendering of
   * `n` typed fields has its opening line, `n` field lines and its closing line.
   */
  lemma RenderLines(typed: Fields)
    requires |typed| > 0
    requires forall i :: 0 <= i < |typed| ==> Count(typed[i].0, '\n') == 0
    requires forall i :: 0 <= i < |typed| ==> typed[i].1 in {"date", "phone", "email", "text"}
    ensures Count(Render(typed), '\n') == |typed| + 1
    ensures StartsWith(Render(typed), "{\n") && EndsWith(Render(typed), "\n}")
  {
    var lines := TypeLines(typed);
    forall i | 0 <= i < |lines| ensures Count(lines[i], '\n') == 0 {
      TypeLineNewlines(typed[i]);
    }
    JoinNewlines(lines);
    var body := Join(",\n", lines);
    assert Count("{\n", '\n') == 1 && Count("\n}", '\n') == 1;
    CountConcat("{\n", body, '\n');
    CountConcat("{\n" + body, "\n}", '\n');
    var s := Render(typed);
    assert s == "{\n" + body + "\n}";
    assert s[..2] == "{\n";
    assert s[|s| - 2..] == "\n}";
  }

  /** The report of `n` fields whose names hold no newline has `n + 2` lines, braced. */
  lemma ReportLines(fields: Fields)
    requires |fields| > 0
    requires forall i :: 0 <= i < |fields| ==> Count(fields[i].0, '\n') == 0
    ensures Count(Report(fields), '\n') == |fields| + 1
    ensures StartsWith(Report(fields), "{\n") && EndsWith(Report(fields), "\n}")
  {
    RenderLines(DetectedTypes(fields));
  }

  // --------------------------------------------------------------------- main

  /** What main does, as the branch it takes and what that branch prints. */
  datatype Outcome =
    | Usage                            // fewer than two words on the command line
    | UnknownCommand(command: string)  // a first word other than get_tpl
    | NoFields                         // no well-formed --name=value argument
    | Found(name: string)              // the name of the template found
    | NotFound(report: string)         // the detected types, when none is found

  const UsageLine := "Использование: app.py get_tpl --имя_поля=значение --имя_поля=значение"

  /** What main prints on standard output for the outcome. */
  function Printed(o: Outcome): (out: string)
    ensures EndsWith(out, "\n")
  {
    match o
    case Usage => UsageLine + "\n"
    case UnknownCommand(command) => "Неизвестная команда: " + command + "\n" + UsageLine + "\n"
    case NoFields => "Ошибка: не указаны поля для поиска\n"
    case Found(name) => name + "\n"
    case NotFound(report) => report + "\n"
  }

  /** main, for the command line `argv` (program name first) and the stored templates. */
  function MainOutcome(argv: seq<string>, forms: seq<Template>): Outcome
  {
    if |argv| < 2 then Usage
    else if argv[1] != "get_tpl" then UnknownCommand(argv[1])
    else
      var fields := Parsed(argv[2..]);
      if fields == [] then NoFields
      else
        var formName := MatchOf(forms, FieldTypes(ToMap(fields)));
        if formName.Some? && formName.value != "" then Found(formName.value)
        else NotFound(Report(fields))
  }

  /** The types main's lookup sees: one per parsed name, that of the name's last value. */
  lemma QueryTypes(args: seq<string>)
    ensures forall k :: k in FieldTypes(ToMap(Parsed(args))) <==> LastNamed(args, k) >= 0
    ensures forall k :: k in FieldTypes(ToMap(Parsed(args))) ==>
      FieldTypes(ToMap(Parsed(args)))[k] == DetectFieldType(SplitArgument(args[LastNamed(args, k)]).value.1)
  {
    var r := Parsed(args);
    ParsedIsParse(args);
    ToMapAgrees(r);
    forall k | k in FieldTypes(ToMap(r))
      ensures FieldTypes(ToMap(r))[k] == DetectFieldType(SplitArgument(args[LastNamed(args, k)]).value.1)
    {
      var p :| 0 <= p < |r| && r[p].0 == k;
    }
  }

  /**
   * main's branches: the usage message without a command, the unknown-command
   * message for another command, the no-fields error without a well-formed
   * argument; otherwise the best template's name, or, when no named template
   * with at least one field matches, the report of the parsed fields.
   */
  lemma MainOutcomeCases(argv: seq<string>, forms: seq<Template>)
    ensures MainOutcome(argv, forms) == Usage <==> |argv| < 2
    ensures MainOutcome(argv, forms).UnknownCommand? <==> |argv| >= 2 && argv[1] != "get_tpl"
    ensures MainOutcome(argv, forms).UnknownCommand? ==> MainOutcome(argv, forms).command == argv[1]
    ensures MainOutcome(argv, forms) == NoFields <==>
      |argv| >= 2 && argv[1] == "get_tpl" && forall i :: 2 <= i < |argv| ==> SplitArgument(argv[i]).None?
    ensures MainOutcome(argv, forms).Found? ==>
      exists i :: IsBestAt(forms, FieldTypes(ToMap(Parsed(argv[2..]))), i) &&
        MainOutcome(argv, forms).name == forms[i][NameKey]
    ensures MainOutcome(argv, forms).NotFound? ==>
      Parsed(argv[2..]) != [] &&
      MainOutcome(argv, forms).report == Report(Parsed(argv[2..])) &&
      forall j :: 0 <= j < |forms| ==> !Eligible(forms[j], FieldTypes(ToMap(Parsed(argv[2..]))))
  {
    if |argv| >= 2 && argv[1] == "get_tpl" {
      var args := argv[2..];
      ParsedEmpty(args);
      assert forall i :: 2 <= i < |argv| ==> argv[i] == args[i - 2];
      var types := FieldTypes(ToMap(Parsed(args)));
      MatchOfIsBest(forms, types);
      if MatchOf(forms, types).Some? {
        MatchOfIsStoredName(forms, types);
      }
    }
  }

  /**
   * Once the command line names get_tpl and parses to some fields, main prints
   * the lookup's answer for their detected types when there is one, and the
   * report of the fields otherwise.
   */
  lemma MainOfParsed(argv: seq<string>, forms: seq<Template>, fields: Fields, types: map<string, string>)
    requires |argv| >= 2 && argv[1] == "get_tpl" && Parsed(argv[2..]) == fields && fields != []
    requires FieldTypes(ToMap(fields)) == types
    ensures MatchOf(forms, types).Some? ==> MainOutcome(argv, forms) == Found(MatchOf(forms, types).value)
    ensures MatchOf(forms, types).None? ==> MainOutcome(argv, forms) == NotFound(Report(fields))
  {
    if MatchOf(forms, types).Some? {
      MatchOfIsStoredName(forms, types);
    }
  }

  /** `app.py get_tpl` followed by well-formed arguments with distinct names. */
  lemma MainOfArguments(argv: seq<string>, fields: Fields, forms: seq<Template>)
    requires fields != [] && DistinctKeys(fields)
    requires forall i :: 0 <= i < |fields| ==> '=' !in fields[i].0
    requires argv == ["app.py", "get_tpl"] + Arguments(fields)
    ensures MatchOf(forms, FieldTypes(ToMap(fields))).Some? ==>
      MainOutcome(argv, forms) == Found(MatchOf(forms, FieldTypes(ToMap(fields))).value)
    ensures MatchOf(forms, FieldTypes(ToMap(fields))).None? ==> MainOutcome(argv, forms) == NotFound(Report(fields))
  {
    CommandLineParses(argv, fields);
    if MatchOf(forms, FieldTypes(ToMap(fields))).Some? {
      MatchOfIsStoredName(forms, FieldTypes(ToMap(fields)));
    }
  }

  /** The command line spelled from distinct fields names the command and parses back to the fields. */
  lemma CommandLineParses(argv: seq<string>, fields: Fields)
    requires DistinctKeys(fields)
    requires forall i :: 0 <= i < |fields| ==> '=' !in fields[i].0
    requires argv == ["app.py", "get_tpl"] + Arguments(fields)
    ensures |argv| >= 2 && argv[1] == "get_tpl" && Parsed(argv[2..]) == fields
  {
    assert argv[2..] == Arguments(fields);
    ParseArgumentsRoundTrip(fields);
  }

  /** main: check the command, parse the fields, look the template up, print the result. */
  method Run(argv: seq<string>, db: FormDatabase) returns (outcome: Outcome)
    ensures outcome == MainOutcome(argv, db.forms)
  {
    if |argv| < 2 {
      return Usage;
    }
    var command := argv[1];
    if command != "get_tpl" {
      return UnknownCommand(command);
    }
    var fields := ParseArguments(argv[2..]);
    if fields == [] {
      return NoFields;
    }
    var formName := db.FindMatchingForm(ToMap(fields));
    if formName.Some? && formName.value != "" {
      outcome := Found(formName.value);
    } else {
      var result := RenderFieldTypes(fields);
      outcome := NotFound(result);
    }
  }
}
