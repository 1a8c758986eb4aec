/** scripts/call_order.py: whether, following an entry function and the functions it calls by name,
    one kind of call comes before another. */
module CallOrder {
  import opened Text
  import opened Sorting

  /** A call expression: where it stands, the plain or `self.` name it calls (empty for any other
      callee), and its text. */
  datatype Call = Call(line: int, column: int, callee: string, text: string)

  /** A function definition with the calls found in its body, in the order of the tree walk. */
  datatype Definition = Definition(name: string, found: seq<Call>)

  predicate PositionLeq(a: Call, b: Call) {
    a.line < b.line || (a.line == b.line && a.column <= b.column)
  }

  /** `_calls`: by position in the source. */
  function Calls(d: Definition): (calls: seq<Call>) {
    Sort(d.found, PositionLeq)
  }

  lemma CallsByPosition(d: Definition)
    ensures IsSorted(Calls(d), PositionLeq) && |Calls(d)| == |d.found|
    ensures forall c :: c in Calls(d) <==> c in d.found
  {
    SortSorted(d.found, PositionLeq);
    SortContents(d.found, PositionLeq);
    assert forall c :: c in Calls(d) <==> c in multiset(Calls(d));
  }

  // ----- one definition per name -----

  /** The definition that counts: the first with calls, or else the last. */
  function Chosen(definitions: seq<Definition>, name: string): Option<Definition> {
    if definitions == [] then None
    else
      var last := definitions[|definitions| - 1];
      var before := Chosen(definitions[..|definitions| - 1], name);
      if last.name == name && (before.None? || before.value.found == []) then Some(last) else before
  }

  /** What `_functions` builds. */
  function Table(definitions: seq<Definition>): map<string, Definition> {
    var names := set i | 0 <= i < |definitions| :: definitions[i].name;
    map n | n in names && Chosen(definitions, n).Some? :: Chosen(definitions, n).value
  }

  method Functions(definitions: seq<Definition>) returns (functions: map<string, Definition>)
    ensures functions == Table(definitions)
  {
    functions := map[];
    for i := 0 to |definitions|
      invariant forall n :: n in functions <==> Chosen(definitions[..i], n).Some?
      invariant forall n :: n in functions ==> Chosen(definitions[..i], n) == Some(functions[n])
    {
      var d := definitions[i];
      assert definitions[..i + 1][..i] == definitions[..i];
      CallsByPosition(if d.name in functions then functions[d.name] else d);
      if d.name !in functions || Calls(functions[d.name]) == [] {
        functions := functions[d.name := d];
      }
    }
    assert definitions[..|definitions|] == definitions;
    forall n | n in functions ensures n in Table(definitions) {
      var i := ChosenMeaning(definitions, n);
    }
  }

  /** What `Chosen` means: a definition of that name, the first one with calls if there is any, the
      last one if there is none. */
  lemma {:induction false} ChosenMeaning(definitions: seq<Definition>, name: string) returns (i: int)
    ensures Chosen(definitions, name).None? ==> forall j :: 0 <= j < |definitions| ==> definitions[j].name != name
    ensures Chosen(definitions, name).Some? ==>
            IsChoice(definitions, name, i) && definitions[i] == Chosen(definitions, name).value
  {
    i := 0;
    if definitions != [] {
      var n := |definitions| - 1;
      var front := definitions[..n];
      i := ChosenMeaning(front, name);
      assert definitions == front + [definitions[n]];
      var before := Chosen(front, name);
      if definitions[n].name == name && (before.None? || before.value.found == []) {
        i := n;
      }
    }
  }

  ghost predicate IsChoice(definitions: seq<Definition>, name: string, i: int) {
    && 0 <= i < |definitions| && definitions[i].name == name
    && (definitions[i].found != [] ==> forall j :: 0 <= j < i && definitions[j].name == name ==> definitions[j].found == [])
    && (definitions[i].found == [] ==> forall j :: 0 <= j < |definitions| && definitions[j].name == name ==>
          j <= i && definitions[j].found == [])
  }

  // ----- reaching a marked call -----

  predicate Marked(d: Definition, marker: Call -> bool) {
    exists c :: c in d.found && marker(c)
  }

  predicate CallsInto(d: Definition, names: set<string>) {
    exists c :: c in d.found && c.callee in names
  }

  /** Each function of the chain calls the next by name, and the last one makes a marked call. */
  ghost predicate CallPath(functions: map<string, Definition>, marker: Call -> bool, path: seq<string>) {
    path != [] && path[0] in functions &&
    if |path| == 1 then Marked(functions[path[0]], marker)
    else CallsInto(functions[path[0]], {path[1]}) && CallPath(functions, marker, path[1..])
  }

  ghost predicate Reaches(functions: map<string, Definition>, marker: Call -> bool, name: string) {
    exists path :: CallPath(functions, marker, path) && path[0] == name
  }

  lemma ReachesByCall(functions: map<string, Definition>, marker: Call -> bool, name: string, next: string)
    requires name in functions && CallsInto(functions[name], {next}) && Reaches(functions, marker, next)
    ensures Reaches(functions, marker, name)
  {
    var rest :| CallPath(functions, marker, rest) && rest[0] == next;
    var path := [name] + rest;
    assert path[1..] == rest;
    assert CallPath(functions, marker, path);
  }

  lemma ReachesDirectly(functions: map<string, Definition>, marker: Call -> bool, name: string)
    requires name in functions && Marked(functions[name], marker)
    ensures Reaches(functions, marker, name)
  {
    assert CallPath(functions, marker, [name]);
  }

  /** A set that holds the marked functions and no function outside calls into holds every function
      on a path. */
  ghost predicate Closed(functions: map<string, Definition>, marker: Call -> bool, reached: set<string>) {
    forall n :: n in functions && n !in reached ==> !Marked(functions[n], marker) && !CallsInto(functions[n], reached)
  }

  lemma {:induction false} ClosedHoldsPaths(functions: map<string, Definition>, marker: Call -> bool,
                                           reached: set<string>, path: seq<string>)
    requires Closed(functions, marker, reached) && CallPath(functions, marker, path)
    ensures path[0] in reached
    decreases path
  {
    if |path| > 1 {
      ClosedHoldsPaths(functions, marker, reached, path[1..]);
      var c :| c in functions[path[0]].found && c.callee in {path[1]};
      assert CallsInto(functions[path[0]], reached);
    }
  }

  /** `_reaching`: exactly the functions with a call path to a marked call, in whatever order the
      functions are looked at. */
  method Reaching(functions: map<string, Definition>, marker: Call -> bool) returns (reached: set<string>)
    ensures forall n :: n in reached <==> Reaches(functions, marker, n)
  {
    reached := set n | n in functions && Marked(functions[n], marker);
    forall n | n in reached ensures Reaches(functions, marker, n) {
      ReachesDirectly(functions, marker, n);
    }
    var changed := true;
    while changed
      invariant reached <= functions.Keys
      invariant forall n :: n in reached ==> Reaches(functions, marker, n)
      invariant forall n :: n in functions && Marked(functions[n], marker) ==> n in reached
      invariant !changed ==> Closed(functions, marker, reached)
      decreases functions.Keys - reached, if changed then 1 else 0
    {
      changed, reached := Sweep(functions, marker, reached);
    }
    forall n | Reaches(functions, marker, n) ensures n in reached {
      var path :| CallPath(functions, marker, path) && path[0] == n;
      ClosedHoldsPaths(functions, marker, reached, path);
    }
  }

  /** One pass over all functions. */
  method Sweep(functions: map<string, Definition>, ghost marker: Call -> bool, start: set<string>)
      returns (changed: bool, reached: set<string>)
    requires start <= functions.Keys
    requires forall n :: n in start ==> Reaches(functions, marker, n)
    requires forall n :: n in functions && Marked(functions[n], marker) ==> n in start
    ensures start <= reached <= functions.Keys && (changed <==> start != reached)
    ensures forall n :: n in reached ==> Reaches(functions, marker, n)
    ensures !changed ==> Closed(functions, marker, reached)
  {
    changed, reached := false, start;
    var todo := functions.Keys;
    while todo != {}
      invariant todo <= functions.Keys && start <= reached <= functions.Keys
      invariant changed <==> start != reached
      invariant forall n :: n in reached ==> Reaches(functions, marker, n)
      invariant !changed ==> forall n :: n in functions && n !in todo && n !in reached ==> !CallsInto(functions[n], reached)
      decreases todo
    {
      var name :| name in todo;
      todo := todo - {name};
      if name !in reached && CallsInto(functions[name], reached) {
        var c :| c in functions[name].found && c.callee in reached;
        ReachesByCall(functions, marker, name, c.callee);
        reached := reached + {name};
        changed := true;
      }
    }
  }

  // ----- which kind of call comes first -----

  /** The call is marked, or leads to a marked call. */
  ghost predicate Hits(functions: map<string, Definition>, marker: Call -> bool, c: Call) {
    marker(c) || Reaches(functions, marker, c.callee)
  }

  /** In the entry, some call that hits `first` stands on a line above every call that hits `then_`,
      and there is one that does. */
  ghost predicate Precedes(functions: map<string, Definition>, root: Definition, first: Call -> bool, then_: Call -> bool) {
    && (exists d :: d in root.found && Hits(functions, then_, d))
    && exists c :: c in root.found && Hits(functions, first, c) && Above(functions, root, then_, c)
  }

  ghost predicate Above(functions: map<string, Definition>, root: Definition, marker: Call -> bool, c: Call) {
    forall d :: d in root.found && Hits(functions, marker, d) ==> c.line < d.line
  }

  /** The line of the first call that hits. */
  method FirstLine(functions: map<string, Definition>, root: Definition, marker: Call -> bool) returns (line: Option<int>)
    ensures line.Some? <==> exists c :: c in root.found && Hits(functions, marker, c)
    ensures line.Some? ==> exists c :: c in root.found && Hits(functions, marker, c) && c.line == line.value
    ensures line.Some? ==> forall c :: c in root.found && Hits(functions, marker, c) ==> line.value <= c.line
  {
    var reach := Reaching(functions, marker);
    var calls := Calls(root);
    CallsByPosition(root);
    hide Calls, Reaches;
    for i := 0 to |calls|
      invariant forall j :: 0 <= j < i ==> !Hits(functions, marker, calls[j])
    {
      if marker(calls[i]) || calls[i].callee in reach {
        assert calls[i] in root.found && Hits(functions, marker, calls[i]);
        forall c | c in root.found && Hits(functions, marker, c)
          ensures calls[i].line <= c.line
        {
          var j :| 0 <= j < |calls| && calls[j] == c;
          assert j > i ==> PositionLeq(calls[i], calls[j]);
        }
        return Some(calls[i].line);
      }
    }
    return None;
  }

  /** `first_reach_precedes` decides the path-based order. */
  method FirstReachPrecedes(definitions: seq<Definition>, entry: string, first: Call -> bool, then_: Call -> bool)
      returns (r: bool)
    ensures var functions := Table(definitions);
            r <==> entry in functions && Precedes(functions, functions[entry], first, then_)
  {
    var functions := Functions(definitions);
    if entry !in functions {
      return false;
    }
    var root := functions[entry];
    var firstAt := FirstLine(functions, root, first);
    var thenAt := FirstLine(functions, root, then_);
    r := firstAt.Some? && thenAt.Some? && firstAt.value < thenAt.value;
    hide Table, Hits;
    if thenAt.Some? {
      ghost var d :| d in root.found && Hits(functions, then_, d) && d.line == thenAt.value;
      if firstAt.Some? {
        ghost var c :| c in root.found && Hits(functions, first, c) && c.line == firstAt.value;
        assert r ==> Above(functions, root, then_, c);
      }
    }
  }
}
