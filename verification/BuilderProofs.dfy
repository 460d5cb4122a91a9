/** Exactly which call sequences build a value, and which value. */
module BuilderProofs {
  import opened Wrappers
  import opened Strings
  import opened JsonNode
  import opened BuilderLanguage

  // ---- Explaining a run

  /** A container still open, with what it holds so far, or a key waiting for its value. */
  datatype Frame = ArrFrame(items: seq<Spelling>) | ObjFrame(fields: seq<Field>) | KeyFrame(key: string)

  /** How the calls so far are to be read: some nulls that left no trace, then a value, complete or not. */
  datatype Reading = Finished(nulls: nat, sp: Spelling) | Unfinished(nulls: nat, frames: seq<Frame>)

  function Nulls(k: nat): seq<Call> {
    if k == 0 then [] else Nulls(k - 1) + [Value(Null)]
  }

  function FrameCalls(f: Frame): seq<Call> {
    match f
    case ArrFrame(items) => [StartArray] + ItemCalls(items)
    case ObjFrame(fields) => [StartDict] + FieldCalls(fields)
    case KeyFrame(key) => [Key(key)]
  }

  function FramesCalls(frames: seq<Frame>): seq<Call> {
    if frames == [] then [] else FramesCalls(frames[..|frames| - 1]) + FrameCalls(frames[|frames| - 1])
  }

  function FrameNode(f: Frame): Node {
    match f
    case ArrFrame(items) => Array(Meanings(items))
    case ObjFrame(fields) => Dict(Entries(fields))
    case KeyFrame(key) => Str(key)
  }

  function FrameNodes(frames: seq<Frame>): seq<Node> {
    seq(|frames|, i requires 0 <= i < |frames| => FrameNode(frames[i]))
  }

  function ReadingCalls(r: Reading): seq<Call> {
    Nulls(r.nulls) + if r.Finished? then Calls(r.sp) else FramesCalls(r.frames)
  }

  function ReadingState(r: Reading): State {
    if r.Finished? then State(Meaning(r.sp), []) else State(Null, FrameNodes(r.frames))
  }

  predicate Sensible(r: Reading) {
    r.Finished? ==> Meaning(r.sp) != Null
  }

  lemma FramesPush(frames: seq<Frame>, f: Frame)
    ensures FramesCalls(frames + [f]) == FramesCalls(frames) + FrameCalls(f)
    ensures FrameNodes(frames + [f]) == FrameNodes(frames) + [FrameNode(f)]
  {
    assert (frames + [f])[..|frames|] == frames;
  }

  lemma ItemsPush(items: seq<Spelling>, sp: Spelling)
    ensures FrameCalls(ArrFrame(items + [sp])) == FrameCalls(ArrFrame(items)) + Calls(sp)
    ensures Meanings(items + [sp]) == Meanings(items) + [Meaning(sp)]
  {
    assert (items + [sp])[..|items|] == items;
  }

  lemma FieldsPush(fields: seq<Field>, key: string, sp: Spelling)
    ensures FrameCalls(ObjFrame(fields + [Field(key, sp)])) == FrameCalls(ObjFrame(fields)) + ([Key(key)] + Calls(sp))
    ensures Entries(fields + [Field(key, sp)]) == Emplace(Entries(fields), key, Meaning(sp))
  {
    var more := fields + [Field(key, sp)];
    assert more[..|more| - 1] == fields && more[|more| - 1] == Field(key, sp);
    assert FieldCalls(more) == FieldCalls(fields) + OneField(Field(key, sp));
    assert [StartDict] + (FieldCalls(fields) + OneField(Field(key, sp))) ==
           [StartDict] + FieldCalls(fields) + OneField(Field(key, sp));
  }

  /** A value completed on top of the open frames. */
  lemma Absorb(nulls: nat, frames: seq<Frame>, sp: Spelling) returns (r: Reading)
    requires TakeValue(State(Null, FrameNodes(frames)), Meaning(sp)).Some?
    requires Meaning(sp) == Null ==> sp == Whole(Null)
    ensures Sensible(r) && ReadingCalls(r) == Nulls(nulls) + FramesCalls(frames) + Calls(sp)
    ensures ReadingState(r) == TakeValue(State(Null, FrameNodes(frames)), Meaning(sp)).value
  {
    if frames == [] {
      r := if Meaning(sp) == Null then Unfinished(nulls + 1, []) else Finished(nulls, sp);
      assert Nulls(nulls) + [] == Nulls(nulls);
    } else {
      var init, top := frames[..|frames| - 1], frames[|frames| - 1];
      assert frames == init + [top];
      FramesPush(init, top);
      if top.ArrFrame? {
        r := AbsorbItem(nulls, init, top.items, sp);
      } else {
        r := AbsorbField(nulls, init, top.key, sp);
      }
    }
  }

  lemma AbsorbItem(nulls: nat, frames: seq<Frame>, items: seq<Spelling>, sp: Spelling) returns (r: Reading)
    ensures Sensible(r)
    ensures ReadingCalls(r) == Nulls(nulls) + (FramesCalls(frames) + FrameCalls(ArrFrame(items))) + Calls(sp)
    ensures Some(ReadingState(r)) ==
            TakeValue(State(Null, FrameNodes(frames) + [Array(Meanings(items))]), Meaning(sp))
  {
    var more := ArrFrame(items + [sp]);
    r := Unfinished(nulls, frames + [more]);
    FramesPush(frames, more);
    ItemsPush(items, sp);
    RegroupItem(Nulls(nulls), FramesCalls(frames), FrameCalls(ArrFrame(items)), Calls(sp));
    ItemIsAdded(State(Null, FrameNodes(frames)), Meanings(items), Meaning(sp));
  }

  lemma RegroupItem(a: seq<Call>, b: seq<Call>, c: seq<Call>, d: seq<Call>)
    ensures a + (b + (c + d)) == a + (b + c) + d
  {
  }

  lemma ItemIsAdded(below: State, items: seq<Node>, node: Node)
    requires below.root == Null
    ensures TakeValue(State(Null, below.stack + [Array(items)]), node) ==
            Some(State(Null, below.stack + [Array(items + [node])]))
  {
    assert State(Null, below.stack + [Array(items)]) == Push(below, Array(items));
  }

  lemma AbsorbField(nulls: nat, frames: seq<Frame>, key: string, sp: Spelling) returns (r: Reading)
    requires TakeValue(State(Null, FrameNodes(frames) + [Str(key)]), Meaning(sp)).Some?
    ensures Sensible(r) && ReadingCalls(r) == Nulls(nulls) + (FramesCalls(frames) + [Key(key)]) + Calls(sp)
    ensures ReadingState(r) == TakeValue(State(Null, FrameNodes(frames) + [Str(key)]), Meaning(sp)).value
  {
    var below := State(Null, FrameNodes(frames));
    assert State(Null, FrameNodes(frames) + [Str(key)]) == Push(below, Str(key));
    var init, top := frames[..|frames| - 1], frames[|frames| - 1];
    assert frames == init + [top] && Top(below) == FrameNode(top);
    var more := ObjFrame(top.fields + [Field(key, sp)]);
    r := Unfinished(nulls, init + [more]);
    FramesPush(init, top);
    FramesPush(init, more);
    FieldsPush(top.fields, key, sp);
    KeyedValueIsTaken(below, key, Meaning(sp));
    assert Pop(below) == State(Null, FrameNodes(init));
    Regroup(Nulls(nulls), FramesCalls(init), FrameCalls(top), [Key(key)], Calls(sp));
  }

  lemma Regroup(a: seq<Call>, b: seq<Call>, c: seq<Call>, d: seq<Call>, e: seq<Call>)
    ensures a + (b + (c + (d + e))) == a + ((b + c) + d) + e
  {
  }

  /** One more call that does not throw. */
  lemma ReadOn(before: Reading, call: Call) returns (r: Reading)
    requires Sensible(before) && Step(ReadingState(before), call).Some?
    ensures Sensible(r) && ReadingCalls(r) == ReadingCalls(before) + [call]
    ensures ReadingState(r) == Step(ReadingState(before), call).value
  {
    StepNeedsOpen(before, call);
    var nulls, frames := before.nulls, before.frames;
    match call
    case Value(node) => r := Absorb(nulls, frames, Whole(node));
    case Key(key) => r := ReadOpen(nulls, frames, KeyFrame(key), call);
    case StartArray => r := ReadOpen(nulls, frames, ArrFrame([]), call);
    case StartDict => r := ReadOpen(nulls, frames, ObjFrame([]), call);
    case _ => r := ReadEnd(nulls, frames, call);
  }

  /** A finished value admits no further call. */
  lemma StepNeedsOpen(before: Reading, call: Call)
    requires Sensible(before) && Step(ReadingState(before), call).Some?
    ensures before.Unfinished?
  {
  }

  lemma ReadEnd(nulls: nat, frames: seq<Frame>, call: Call) returns (r: Reading)
    requires (call.EndArray? || call.EndDict?) && Step(State(Null, FrameNodes(frames)), call).Some?
    ensures Sensible(r) && ReadingCalls(r) == Nulls(nulls) + FramesCalls(frames) + [call]
    ensures ReadingState(r) == Step(State(Null, FrameNodes(frames)), call).value
  {
    var top := frames[|frames| - 1];
    assert Top(State(Null, FrameNodes(frames))) == FrameNode(top);
    if call.EndArray? {
      r := ReadClose(nulls, frames, Arr(top.items), call);
    } else {
      r := ReadClose(nulls, frames, Obj(top.fields), call);
    }
  }

  lemma ReadOpen(nulls: nat, frames: seq<Frame>, f: Frame, call: Call) returns (r: Reading)
    requires FrameCalls(f) == [call] && Opening(f, call) && Step(State(Null, FrameNodes(frames)), call).Some?
    ensures Sensible(r) && ReadingCalls(r) == Nulls(nulls) + FramesCalls(frames) + [call]
    ensures ReadingState(r) == Step(State(Null, FrameNodes(frames)), call).value
  {
    r := Unfinished(nulls, frames + [f]);
    FramesPush(frames, f);
    RegroupEnd(Nulls(nulls), FramesCalls(frames), [call]);
    OpeningPushes(State(Null, FrameNodes(frames)), f, call);
  }

  predicate Opening(f: Frame, call: Call) {
    match call
    case Key(key) => f == KeyFrame(key)
    case StartArray => f == ArrFrame([])
    case StartDict => f == ObjFrame([])
    case _ => false
  }

  lemma OpeningPushes(st: State, f: Frame, call: Call)
    requires Opening(f, call) && Step(st, call).Some?
    ensures Step(st, call) == Some(Push(st, FrameNode(f)))
  {
  }

  lemma RegroupEnd(a: seq<Call>, b: seq<Call>, c: seq<Call>)
    ensures a + (b + c) == a + b + c
  {
  }

  /** Closing the top frame makes it a value for the frame below. */
  lemma ReadClose(nulls: nat, frames: seq<Frame>, sp: Spelling, call: Call) returns (r: Reading)
    requires frames != [] && Close(State(Null, FrameNodes(frames)), true).Some?
    requires Calls(sp) == FrameCalls(frames[|frames| - 1]) + [call] && !sp.Whole?
    requires Meaning(sp) == FrameNode(frames[|frames| - 1])
    ensures Sensible(r) && ReadingCalls(r) == Nulls(nulls) + FramesCalls(frames) + [call]
    ensures ReadingState(r) == Close(State(Null, FrameNodes(frames)), true).value
  {
    var init, top := frames[..|frames| - 1], frames[|frames| - 1];
    assert frames == init + [top];
    FramesPush(init, top);
    var below := State(Null, FrameNodes(init));
    assert State(Null, FrameNodes(frames)) == Push(below, FrameNode(top));
    r := Absorb(nulls, init, sp);
    RegroupClose(Nulls(nulls), FramesCalls(init), FrameCalls(top), [call]);
  }

  lemma RegroupClose(a: seq<Call>, b: seq<Call>, c: seq<Call>, d: seq<Call>)
    ensures a + b + (c + d) == a + (b + c) + d
  {
  }

  /** Every run without a throw has a reading. */
  lemma {:induction false} Explain(calls: seq<Call>) returns (r: Reading)
    requires Run(FRESH, calls).Some?
    ensures Sensible(r) && ReadingCalls(r) == calls && ReadingState(r) == Run(FRESH, calls).value
  {
    if calls == [] {
      r := Unfinished(0, []);
    } else {
      var before := Explain(calls[..|calls| - 1]);
      r := ReadOn(before, calls[|calls| - 1]);
    }
  }

  // ---- The language

  /** The calls are some nulls followed by one spelling of n. */
  ghost predicate SpellsOne(calls: seq<Call>, n: Node) {
    exists k, sp :: calls == Nulls(k) + Calls(sp) && Meaning(sp) == n
  }

  lemma {:induction false} NullsLeaveNoTrace(k: nat)
    ensures Run(FRESH, Nulls(k)) == Some(FRESH)
  {
    if k != 0 {
      NullsLeaveNoTrace(k - 1);
      assert Nulls(k)[..|Nulls(k)| - 1] == Nulls(k - 1);
    }
  }

  /** A call sequence ends in a successful Build of n if and only if, after top-level nulls, it spells n. */
  lemma BuildsExactly(calls: seq<Call>, n: Node)
    ensures Run(FRESH, calls).Some? && Build(Run(FRESH, calls).value) == Some(n) <==> SpellsOne(calls, n) && n != Null
  {
    if Run(FRESH, calls).Some? && Build(Run(FRESH, calls).value) == Some(n) {
      var r := Explain(calls);
      assert r.Finished? && calls == Nulls(r.nulls) + Calls(r.sp);
    }
    if SpellsOne(calls, n) && n != Null {
      var k, sp :| calls == Nulls(k) + Calls(sp) && Meaning(sp) == n;
      NullsLeaveNoTrace(k);
      RunConcat(FRESH, Nulls(k), Calls(sp));
      SpellingIsTaken(FRESH, sp);
    }
  }

  /** No call sequence spells two values. */
  lemma SpellingUnambiguous(calls: seq<Call>, m: Node, n: Node)
    requires SpellsOne(calls, m) && SpellsOne(calls, n)
    ensures m == n
  {
    BuildsExactly(calls, m);
    BuildsExactly(calls, n);
    if m == Null || n == Null {
      NullSpelled(calls);
    }
  }

  /** Spelling the null value out builds nothing. */
  lemma NullSpelled(calls: seq<Call>)
    requires SpellsOne(calls, Null)
    ensures Run(FRESH, calls) == Some(FRESH)
  {
    var k, sp :| calls == Nulls(k) + Calls(sp) && Meaning(sp) == Null;
    NullsLeaveNoTrace(k);
    RunConcat(FRESH, Nulls(k), Calls(sp));
    SpellingIsTaken(FRESH, sp);
  }

  // ---- Which calls throw

  /** Open containers can always be closed, and a waiting key given a value. */
  lemma {:induction false} Completable(st: State) returns (more: seq<Call>, n: Node)
    requires Orderly(st)
    ensures Run(st, more).Some? && Build(Run(st, more).value) == Some(n)
    decreases |st.stack|
  {
    if st.root != Null {
      more, n := [], st.root;
    } else if st.stack == [] {
      more, n := [Value(Bool(true))], Bool(true);
      RunOne(st, Value(Bool(true)));
    } else {
      var call := CompletingCall(st);
      var rest;
      rest, n := Completable(Step(st, call).value);
      more := [call] + rest;
      RunOne(st, call);
      RunConcat(st, [call], rest);
    }
  }

  /** A call that takes something off the stack. */
  lemma CompletingCall(st: State) returns (call: Call)
    requires Orderly(st) && st.stack != []
    ensures Step(st, call).Some? && Orderly(Step(st, call).value) && |Step(st, call).value.stack| < |st.stack|
  {
    if Top(st).Str? {
      KeyStandsOnDict(st);
      call := Value(Bool(true));
    } else {
      call := if Top(st).Array? then EndArray else EndDict;
      if |st.stack| > 1 {
        CloseIsTaken(st);
      }
    }
    StepKeepsOrder(st, call);
  }

  /** The calls can be continued to spell a value. */
  ghost predicate Viable(calls: seq<Call>) {
    exists more, n :: SpellsOne(calls + more, n) && n != Null
  }

  /** No call throws if and only if the calls can be continued to spell a value. */
  lemma ViableIff(calls: seq<Call>)
    ensures Run(FRESH, calls).Some? <==> Viable(calls)
  {
    if Run(FRESH, calls).Some? {
      RunKeepsOrder(FRESH, calls);
      var more, n := Completable(Run(FRESH, calls).value);
      RunConcat(FRESH, calls, more);
      BuildsExactly(calls + more, n);
    }
    if Viable(calls) {
      var more, n :| SpellsOne(calls + more, n) && n != Null;
      BuildsExactly(calls + more, n);
      RunConcat(FRESH, calls, more);
    }
  }

  /** The calls that do not throw, as the grammar tells: each is kept if, after those kept before, it can be part
      of a spelling. */
  ghost function Kept(calls: seq<Call>): seq<Call> {
    if calls == [] then []
    else
      var before, last := Kept(calls[..|calls| - 1]), calls[|calls| - 1];
      if Viable(before + [last]) then before + [last] else before
  }

  /** The state after all calls, when those that throw are caught and change nothing. */
  function RunOver(st: State, calls: seq<Call>): State {
    if calls == [] then st
    else
      var before := RunOver(st, calls[..|calls| - 1]);
      var after := Step(before, calls[|calls| - 1]);
      if after.Some? then after.value else before
  }

  lemma {:induction false} KeptRun(calls: seq<Call>)
    ensures Run(FRESH, Kept(calls)) == Some(RunOver(FRESH, calls))
  {
    if calls != [] {
      var init, last := calls[..|calls| - 1], calls[|calls| - 1];
      KeptRun(init);
      ViableIff(Kept(init) + [last]);
      RunConcat(FRESH, Kept(init), [last]);
      RunOne(RunOver(FRESH, init), last);
    }
  }

  /** Whatever calls are made, with throws caught: they build n if and only if the calls kept spell n. */
  lemma BuildsFromKept(calls: seq<Call>, n: Node)
    ensures Build(RunOver(FRESH, calls)) == Some(n) <==> SpellsOne(Kept(calls), n) && n != Null
  {
    KeptRun(calls);
    BuildsExactly(Kept(calls), n);
  }

  // ---- Replaying a value

  function SpellOut(n: Node): Spelling {
    match n
    case Array(items) => Arr(SpellItems(items))
    case Dict(entries) => Obj(SpellEntries(entries))
    case _ => Whole(n)
  }

  function SpellItems(items: seq<Node>): seq<Spelling> {
    if items == [] then [] else SpellItems(items[..|items| - 1]) + [SpellOut(items[|items| - 1])]
  }

  function SpellEntries(entries: seq<Entry>): seq<Field> {
    if entries == [] then []
    else
      SpellEntries(entries[..|entries| - 1])
      + [Field(entries[|entries| - 1].key, SpellOut(entries[|entries| - 1].value))]
  }

  lemma {:induction false} SpellOutMeans(n: Node)
    requires WellFormed(n)
    ensures Meaning(SpellOut(n)) == n
    decreases n, 1, 0
  {
    match n
    case Array(items) => SpellItemsMean(n, items);
    case Dict(entries) => SpellEntriesMean(n, entries);
    case _ =>
  }

  lemma MeaningsPush(items: seq<Spelling>, sp: Spelling)
    ensures Meanings(items + [sp]) == Meanings(items) + [Meaning(sp)]
  {
    assert (items + [sp])[..|items|] == items;
  }

  lemma SpellItemsUnfold(items: seq<Node>)
    requires items != []
    ensures SpellItems(items) == SpellItems(items[..|items| - 1]) + [SpellOut(items[|items| - 1])]
  {
  }

  lemma {:induction false} SpellItemsMean(n: Node, items: seq<Node>)
    requires forall m :: 0 <= m < |items| ==> items[m] < n && WellFormed(items[m])
    ensures Meanings(SpellItems(items)) == items
    decreases n, 0, |items|
  {
    if items != [] {
      var init, last := items[..|items| - 1], items[|items| - 1];
      SpellItemsMean(n, init);
      SpellOutMeans(last);
      SpellItemsUnfold(items);
      MeaningsPush(SpellItems(init), SpellOut(last));
      assert items == init + [last];
    }
  }

  lemma {:induction false} SpellEntriesMean(n: Node, entries: seq<Entry>)
    requires forall m :: 0 <= m < |entries| ==> entries[m].value < n && WellFormed(entries[m].value)
    requires Sorted(entries)
    ensures Entries(SpellEntries(entries)) == entries
    decreases n, 0, |entries|
  {
    if entries != [] {
      var init, last := entries[..|entries| - 1], entries[|entries| - 1];
      SpellEntriesMean(n, init);
      SpellOutMeans(last.value);
      FieldsPush(SpellEntries(init), last.key, SpellOut(last.value));
      EmplaceLast(init, last.key, last.value);
    }
  }

  /** Replaying the calls that spell a value out, container by container, builds that value. */
  lemma ReplayBuilds(n: Node)
    requires WellFormed(n) && n != Null
    ensures Run(FRESH, Calls(SpellOut(n))).Some?
    ensures Build(Run(FRESH, Calls(SpellOut(n))).value) == Some(n)
  {
    SpellOutMeans(n);
    SpellingIsTaken(FRESH, SpellOut(n));
  }

  // ---- One container, call by call

  function ValueCalls(items: seq<Node>): seq<Call> {
    if items == [] then [] else ValueCalls(items[..|items| - 1]) + [Value(items[|items| - 1])]
  }

  function Wholes(items: seq<Node>): seq<Spelling> {
    if items == [] then [] else Wholes(items[..|items| - 1]) + [Whole(items[|items| - 1])]
  }

  lemma {:induction false} WholesSpell(items: seq<Node>)
    ensures ItemCalls(Wholes(items)) == ValueCalls(items) && Meanings(Wholes(items)) == items
  {
    if items != [] {
      var init, last := items[..|items| - 1], items[|items| - 1];
      WholesSpell(init);
      MeaningsPush(Wholes(init), Whole(last));
      assert Wholes(items)[..|Wholes(items)| - 1] == Wholes(init);
      assert items == init + [last];
    }
  }

  /** An array opened, given values in turn and ended holds them in that order. */
  lemma ArrayBuilds(items: seq<Node>)
    ensures Run(FRESH, [StartArray] + ValueCalls(items) + [EndArray]) == Some(State(Array(items), []))
  {
    WholesSpell(items);
    SpellingIsTaken(FRESH, Arr(Wholes(items)));
  }

  /** A dictionary opened, given a key and a value and ended maps the key to the value. */
  lemma DictBuilds(key: string, node: Node)
    ensures Run(FRESH, [StartDict, Key(key), Value(node), EndDict]) == Some(State(Dict([Entry(key, node)]), []))
  {
    var field := Field(key, Whole(node));
    assert [field][..0] == [];
    assert FieldCalls([field]) == [] + OneField(field) == [Key(key), Value(node)];
    assert Calls(Obj([field])) == [StartDict, Key(key), Value(node), EndDict];
    SpellingIsTaken(FRESH, Obj([field]));
    assert Entries([field]) == [Entry(key, node)];
  }

  // ---- Repeated keys

  function Lookup(entries: seq<Entry>, key: string): Option<Node> {
    if entries == [] then None
    else if entries[0].key == key then Some(entries[0].value)
    else Lookup(entries[1..], key)
  }

  function FirstMeaning(fields: seq<Field>, key: string): Option<Node> {
    if fields == [] then None
    else if fields[0].key == key then Some(Meaning(fields[0].value))
    else FirstMeaning(fields[1..], key)
  }

  lemma {:induction false} LookupEmplace(entries: seq<Entry>, key: string, value: Node, x: string)
    requires Sorted(entries)
    ensures Lookup(Emplace(entries, key, value), x) ==
            if Lookup(entries, x).None? && x == key then Some(value) else Lookup(entries, x)
  {
    if entries != [] {
      var inserted := Emplace(entries, key, value);
      if Less(key, entries[0].key) {
        assert inserted[1..] == entries;
        LookupAbove(entries, key);
      } else if entries[0].key != key {
        LookupEmplace(entries[1..], key, value, x);
        assert inserted[1..] == Emplace(entries[1..], key, value);
      }
    }
  }

  lemma {:induction false} LookupAbove(entries: seq<Entry>, key: string)
    requires Sorted(entries) && (entries != [] ==> Less(key, entries[0].key))
    ensures Lookup(entries, key).None?
  {
    LessIrreflexive(key);
    if |entries| > 1 {
      LessTransitive(key, entries[0].key, entries[1].key);
    }
    if entries != [] {
      LookupAbove(entries[1..], key);
    }
  }

  lemma {:induction false} FirstMeaningPush(fields: seq<Field>, last: Field, key: string)
    ensures FirstMeaning(fields + [last], key) ==
            if FirstMeaning(fields, key).Some? then FirstMeaning(fields, key)
            else if last.key == key then Some(Meaning(last.value)) else None
  {
    if fields != [] {
      assert (fields + [last])[1..] == fields[1..] + [last];
      FirstMeaningPush(fields[1..], last, key);
    } else {
      assert (fields + [last])[1..] == [];
    }
  }

  /** A built dictionary is ordered and maps every key to the value given with it first. */
  lemma {:induction false} FirstKeyCounts(fields: seq<Field>, key: string)
    ensures Sorted(Entries(fields)) && Lookup(Entries(fields), key) == FirstMeaning(fields, key)
  {
    if fields != [] {
      var init, last := fields[..|fields| - 1], fields[|fields| - 1];
      FirstKeyCounts(init, key);
      EmplaceSorted(Entries(init), last.key, Meaning(last.value));
      LookupEmplace(Entries(init), last.key, Meaning(last.value), key);
      FirstMeaningPush(init, last, key);
      assert fields == init + [last];
    }
  }
}
