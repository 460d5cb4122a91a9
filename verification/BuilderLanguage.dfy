/** The JSON builder as a pushdown automaton over its calls, and the language it accepts. */
module BuilderLanguage {
  import opened Wrappers
  import opened JsonNode

  datatype Call = Value(node: Node) | Key(key: string) | StartArray | EndArray | StartDict | EndDict

  /** A string on the stack is a key waiting for its value. */
  datatype State = State(root: Node, stack: seq<Node>)

  const FRESH := State(Null, [])

  function Top(st: State): Node
    requires st.stack != []
  {
    st.stack[|st.stack| - 1]
  }

  function Pop(st: State): State
    requires st.stack != []
  {
    st.(stack := st.stack[..|st.stack| - 1])
  }

  function Push(st: State, n: Node): (r: State)
    ensures r.stack != [] && Top(r) == n && Pop(r) == st
  {
    assert (st.stack + [n])[..|st.stack|] == st.stack;
    st.(stack := st.stack + [n])
  }

  // ---- The calls; None is a thrown logic_error

  function TakeValue(st: State, node: Node): Option<State> {
    if st.root != Null then None
    else if st.stack == [] then Some(st.(root := node))
    else if Top(st).Array? then Some(Push(Pop(st), Array(Top(st).items + [node])))
    else if Top(st).Str? && |st.stack| > 1 && Top(Pop(st)).Dict? then
      Some(Push(Pop(Pop(st)), Dict(Emplace(Top(Pop(st)).entries, Top(st).text, node))))
    else None
  }

  lemma LastReplaced(stack: seq<Node>, n: Node)
    requires stack != []
    ensures stack[..|stack| - 1] + [n] == stack[|stack| - 1 := n]
  {
  }

  /** In place: the array on top grows. */
  lemma ArrayGrows(st: State, node: Node)
    requires st.root == Null && st.stack != [] && Top(st).Array?
    ensures TakeValue(st, node) ==
            Some(st.(stack := st.stack[|st.stack| - 1 := Array(Top(st).items + [node])]))
  {
    LastReplaced(st.stack, Array(Top(st).items + [node]));
  }

  /** In place: the key on top goes, and the dictionary below it grows. */
  lemma DictGrows(st: State, below: State, node: Node)
    requires st.root == Null && st.stack != [] && Top(st).Str? && below == Pop(st)
    requires below.stack != [] && Top(below).Dict?
    ensures var more := Dict(Emplace(Top(below).entries, Top(st).text, node));
      TakeValue(st, node) == Some(below.(stack := below.stack[|below.stack| - 1 := more]))
  {
    LastReplaced(below.stack, Dict(Emplace(Top(below).entries, Top(st).text, node)));
  }

  function Open(st: State, container: Node): Option<State> {
    if st.root == Null && (st.stack == [] || Top(st).Array? || Top(st).Str?) then Some(Push(st, container)) else None
  }

  function Close(st: State, matches: bool): Option<State> {
    if st.stack == [] || !matches then None
    else if |st.stack| == 1 then Some(State(Top(st), []))
    else TakeValue(Pop(st), Top(st))
  }

  function Step(st: State, call: Call): Option<State> {
    match call
    case Value(node) => TakeValue(st, node)
    case Key(key) => if st.root == Null && st.stack != [] && Top(st).Dict? then Some(Push(st, Str(key))) else None
    case StartArray => Open(st, Array([]))
    case StartDict => Open(st, Dict([]))
    case EndArray => Close(st, st.stack != [] && Top(st).Array?)
    case EndDict => Close(st, st.stack != [] && Top(st).Dict?)
  }

  /** The state after the calls, unless one of them throws. */
  function Run(st: State, calls: seq<Call>): Option<State> {
    if calls == [] then Some(st)
    else
      var before := Run(st, calls[..|calls| - 1]);
      if before.None? then None else Step(before.value, calls[|calls| - 1])
  }

  function Build(st: State): Option<Node> {
    if st.root == Null || st.stack != [] then None else Some(st.root)
  }

  // ---- The invariant of the stack

  predicate IsContainer(n: Node) {
    n.Array? || n.Dict?
  }

  /** Keys stand on dictionaries; containers stand at the bottom, on arrays or on keys. */
  predicate StandsOn(below: seq<Node>, n: Node) {
    if below == [] then IsContainer(n)
    else
      var top := below[|below| - 1];
      if n.Str? then top.Dict? else IsContainer(n) && (top.Array? || top.Str?)
  }

  predicate StackOrder(stack: seq<Node>) {
    stack == [] || (StackOrder(stack[..|stack| - 1]) && StandsOn(stack[..|stack| - 1], stack[|stack| - 1]))
  }

  predicate Orderly(st: State) {
    StackOrder(st.stack) && (st.root != Null ==> st.stack == [])
  }

  lemma TakeKeepsOrder(st: State, node: Node)
    requires Orderly(st) && TakeValue(st, node).Some?
    ensures Orderly(TakeValue(st, node).value)
  {
    if st.stack != [] && Top(st).Array? {
      var more := Array(Top(st).items + [node]);
      assert StandsOn(Pop(st).stack, more);
      assert Push(Pop(st), more).stack[..|st.stack| - 1] == Pop(st).stack;
    } else if st.stack != [] {
      var below := Pop(Pop(st));
      var more := Dict(Emplace(Top(Pop(st)).entries, Top(st).text, node));
      assert StackOrder(Pop(st).stack) && StandsOn(below.stack, more);
      assert Push(below, more).stack[..|below.stack|] == below.stack;
    }
  }

  lemma PushKeepsOrder(st: State, n: Node)
    requires Orderly(st) && st.root == Null && StandsOn(st.stack, n)
    ensures Orderly(Push(st, n))
  {
  }

  lemma StepKeepsOrder(st: State, call: Call)
    requires Orderly(st) && Step(st, call).Some?
    ensures Orderly(Step(st, call).value)
  {
    match call
    case Value(node) => TakeKeepsOrder(st, node);
    case Key(key) => PushKeepsOrder(st, Str(key));
    case StartArray => PushKeepsOrder(st, Array([]));
    case StartDict => PushKeepsOrder(st, Dict([]));
    case _ =>
      if |st.stack| > 1 {
        TakeKeepsOrder(Pop(st), Top(st));
      }
  }

  lemma KeyStandsOnDict(st: State)
    requires Orderly(st) && st.stack != [] && Top(st).Str?
    ensures |st.stack| > 1 && Top(Pop(st)).Dict?
  {
  }

  /** Closing a container never fails inside: whatever is below takes it. */
  lemma CloseIsTaken(st: State)
    requires Orderly(st) && |st.stack| > 1 && IsContainer(Top(st))
    ensures TakeValue(Pop(st), Top(st)).Some?
  {
    assert StackOrder(Pop(st).stack);
  }

  lemma {:induction false} RunKeepsOrder(st: State, calls: seq<Call>)
    requires Orderly(st) && Run(st, calls).Some?
    ensures Orderly(Run(st, calls).value)
  {
    if calls != [] {
      RunKeepsOrder(st, calls[..|calls| - 1]);
      StepKeepsOrder(Run(st, calls[..|calls| - 1]).value, calls[|calls| - 1]);
    }
  }

  // ---- The language

  /** One way to spell a value: as a whole, or container by container. */
  datatype Spelling = Whole(node: Node) | Arr(items: seq<Spelling>) | Obj(fields: seq<Field>)

  datatype Field = Field(key: string, value: Spelling)

  function Calls(sp: Spelling): seq<Call> {
    match sp
    case Whole(node) => [Value(node)]
    case Arr(items) => [StartArray] + ItemCalls(items) + [EndArray]
    case Obj(fields) => [StartDict] + FieldCalls(fields) + [EndDict]
  }

  function ItemCalls(items: seq<Spelling>): seq<Call> {
    if items == [] then [] else ItemCalls(items[..|items| - 1]) + Calls(items[|items| - 1])
  }

  function FieldCalls(fields: seq<Field>): seq<Call> {
    if fields == [] then []
    else FieldCalls(fields[..|fields| - 1]) + OneField(fields[|fields| - 1])
  }

  function OneField(field: Field): seq<Call> {
    [Key(field.key)] + Calls(field.value)
  }

  function Meaning(sp: Spelling): Node {
    match sp
    case Whole(node) => node
    case Arr(items) => Array(Meanings(items))
    case Obj(fields) => Dict(Entries(fields))
  }

  function Meanings(items: seq<Spelling>): seq<Node> {
    if items == [] then [] else Meanings(items[..|items| - 1]) + [Meaning(items[|items| - 1])]
  }

  /** Of fields with the same key the first one counts. */
  function Entries(fields: seq<Field>): seq<Entry> {
    if fields == [] then []
    else Emplace(Entries(fields[..|fields| - 1]), fields[|fields| - 1].key, Meaning(fields[|fields| - 1].value))
  }

  lemma {:induction false} RunConcat(st: State, a: seq<Call>, b: seq<Call>)
    ensures Run(st, a + b) == if Run(st, a).None? then None else Run(Run(st, a).value, b)
  {
    if b == [] {
      assert a + b == a;
    } else {
      var init := b[..|b| - 1];
      RunConcat(st, a, init);
      assert (a + b)[..|a + b| - 1] == a + init;
    }
  }

  lemma RunOne(st: State, call: Call)
    ensures Run(st, [call]) == Step(st, call)
  {
    assert [call][..0] == [];
  }

  /** A state in which a value may come. */
  predicate Awaits(st: State) {
    Orderly(st) && st.root == Null && (st.stack == [] || Top(st).Array? || Top(st).Str?)
  }

  lemma RunThree(st: State, first: Call, middle: seq<Call>, last: Call, started: State, filled: State)
    requires Step(st, first) == Some(started) && Run(started, middle) == Some(filled)
    ensures Run(st, [first] + middle + [last]) == Step(filled, last)
  {
    RunOne(st, first);
    RunConcat(st, [first], middle);
    assert ([first] + middle + [last])[..|middle| + 1] == [first] + middle;
  }

  /** Wherever a value may come, its spelling has the effect of the value as a whole. */
  lemma {:induction false} SpellingIsTaken(st: State, sp: Spelling)
    requires Awaits(st)
    ensures Run(st, Calls(sp)) == TakeValue(st, Meaning(sp))
    decreases sp, 0
  {
    match sp
    case Whole(node) => RunOne(st, Value(node));
    case Arr(items) =>
      OpeningIsTaken(st, StartArray, Array([]));
      ItemsAreTaken(Push(st, Array([])), items);
      ArrayIsTaken(st, items);
    case Obj(fields) =>
      OpeningIsTaken(st, StartDict, Dict([]));
      FieldsAreTaken(Push(st, Dict([])), fields);
      DictIsTaken(st, fields);
  }

  lemma ArrayIsTaken(st: State, items: seq<Spelling>)
    requires Awaits(st) && Run(Push(st, Array([])), ItemCalls(items)) == Some(Push(st, Array(Meanings(items))))
    ensures Run(st, [StartArray] + ItemCalls(items) + [EndArray]) == TakeValue(st, Array(Meanings(items)))
  {
    NestedIsTaken(st, StartArray, ItemCalls(items), EndArray, Array([]), Array(Meanings(items)));
  }

  lemma DictIsTaken(st: State, fields: seq<Field>)
    requires Awaits(st) && Run(Push(st, Dict([])), FieldCalls(fields)) == Some(Push(st, Dict(Entries(fields))))
    ensures Run(st, [StartDict] + FieldCalls(fields) + [EndDict]) == TakeValue(st, Dict(Entries(fields)))
  {
    NestedIsTaken(st, StartDict, FieldCalls(fields), EndDict, Dict([]), Dict(Entries(fields)));
  }

  /** A container opened, filled and closed has the effect of the filled one. */
  lemma NestedIsTaken(st: State, start: Call, middle: seq<Call>, end: Call, empty: Node, full: Node)
    requires Awaits(st) && Opens(start, empty) && Closes(end, full)
    requires Run(Push(st, empty), middle) == Some(Push(st, full))
    ensures Run(st, [start] + middle + [end]) == TakeValue(st, full)
  {
    OpeningIsTaken(st, start, empty);
    EndIsTaken(st, end, full);
    RunThree(st, start, middle, end, Push(st, empty), Push(st, full));
  }

  predicate Opens(call: Call, container: Node) {
    (call == StartArray && container == Array([])) || (call == StartDict && container == Dict([]))
  }

  predicate Closes(call: Call, container: Node) {
    (call == EndArray && container.Array?) || (call == EndDict && container.Dict?)
  }

  lemma OpeningIsTaken(st: State, call: Call, container: Node)
    requires Awaits(st) && Opens(call, container)
    ensures Step(st, call) == Some(Push(st, container)) && Orderly(Push(st, container))
  {
    PushKeepsOrder(st, container);
  }

  lemma EndIsTaken(st: State, call: Call, container: Node)
    requires Awaits(st) && Closes(call, container)
    ensures Step(Push(st, container), call) == TakeValue(st, container)
  {
  }

  lemma ItemsUnfold(items: seq<Spelling>)
    requires items != []
    ensures ItemCalls(items) == ItemCalls(items[..|items| - 1]) + Calls(items[|items| - 1])
    ensures Meanings(items) == Meanings(items[..|items| - 1]) + [Meaning(items[|items| - 1])]
  {
  }

  lemma {:induction false} ItemIsTaken(st: State, nodes: seq<Node>, item: Spelling)
    requires Orderly(st) && st.stack != [] && Top(st) == Array([])
    ensures Run(Push(Pop(st), Array(nodes)), Calls(item)) == Some(Push(Pop(st), Array(nodes + [Meaning(item)])))
    decreases item, 1
  {
    var before := Push(Pop(st), Array(nodes));
    assert Orderly(before) && Pop(before) == Pop(st);
    SpellingIsTaken(before, item);
  }

  lemma {:induction false} ItemsAreTaken(st: State, items: seq<Spelling>)
    requires Orderly(st) && st.stack != [] && Top(st) == Array([])
    ensures Run(st, ItemCalls(items)) == Some(Push(Pop(st), Array(Meanings(items))))
    decreases items, 1
  {
    if items == [] {
      assert Push(Pop(st), Array([])) == st;
    } else {
      var init, last := items[..|items| - 1], items[|items| - 1];
      ItemsAreTaken(st, init);
      ItemIsTaken(st, Meanings(init), last);
      RunConcat(st, ItemCalls(init), Calls(last));
      ItemsUnfold(items);
    }
  }

  lemma {:induction false} FieldsAreTaken(st: State, fields: seq<Field>)
    requires Orderly(st) && st.stack != [] && Top(st) == Dict([])
    ensures Run(st, FieldCalls(fields)) == Some(Push(Pop(st), Dict(Entries(fields))))
    decreases fields, 1
  {
    if fields == [] {
      assert Push(Pop(st), Dict([])) == st;
    } else {
      var init, last := fields[..|fields| - 1], fields[|fields| - 1];
      FieldsAreTaken(st, init);
      FieldIsTaken(st, Entries(init), last);
      RunConcat(st, FieldCalls(init), OneField(last));
    }
  }

  lemma {:induction false} FieldIsTaken(st: State, entries: seq<Entry>, field: Field)
    requires Orderly(st) && st.stack != [] && Top(st) == Dict([])
    ensures Run(Push(Pop(st), Dict(entries)), OneField(field)) ==
            Some(Push(Pop(st), Dict(Emplace(entries, field.key, Meaning(field.value)))))
    decreases field, 1
  {
    var before := Push(Pop(st), Dict(entries));
    StepKeepsOrder(before, Key(field.key));
    RunOne(before, Key(field.key));
    RunConcat(before, [Key(field.key)], Calls(field.value));
    SpellingIsTaken(Push(before, Str(field.key)), field.value);
    KeyedValueIsTaken(before, field.key, Meaning(field.value));
  }

  lemma KeyedValueIsTaken(st: State, key: string, node: Node)
    requires st.stack != [] && Top(st).Dict? && st.root == Null
    ensures TakeValue(Push(st, Str(key)), node) == Some(Push(Pop(st), Dict(Emplace(Top(st).entries, key, node))))
  {
  }
}
