/** The JSON builder of json_builder.cpp. */
module JsonBuilder {
  import opened Wrappers
  import opened JsonNode
  import opened BuilderLanguage
  import opened BuilderProofs

  /** Every call reports whether it succeeded; false stands for a thrown logic_error. */
  class Builder {
    var root: Node
    var nodesStack: seq<Node>

    ghost function Now(): State
      reads this
    {
      State(root, nodesStack)
    }

    ghost predicate Valid()
      reads this
    {
      Orderly(Now())
    }

    constructor ()
      ensures Valid() && Now() == FRESH
    {
      root := Null;
      nodesStack := [];
    }

    twostate predicate Took(call: Call, ok: bool)
      reads this
    {
      && (ok <==> Step(old(Now()), call).Some?)
      && (if ok then Step(old(Now()), call) == Some(Now()) else Now() == old(Now()))
    }

    method Value(val: Node) returns (ok: bool)
      requires Valid()
      modifies this
      ensures Valid() && Took(Call.Value(val), ok)
    {
      ghost var before := Now();
      if TakeValue(before, val).Some? {
        TakeKeepsOrder(before, val);
      }
      if root != Null {
        return false;
      }
      if nodesStack == [] {
        root := val;
        return true;
      }
      var back := nodesStack[|nodesStack| - 1];
      if back.Array? {
        ArrayGrows(before, val);
        var arr := back.items + [val];
        nodesStack := nodesStack[|nodesStack| - 1 := Array(arr)];
        return true;
      }
      if back.Str? {
        var key := back.text;
        nodesStack := nodesStack[..|nodesStack| - 1];
        ghost var below := Now();
        KeyStandsOnDict(before);
        DictGrows(before, below, val);
        var dict := Emplace(nodesStack[|nodesStack| - 1].entries, key, val);
        nodesStack := nodesStack[|nodesStack| - 1 := Dict(dict)];
        return true;
      }
      return false;
    }

    method Key(key: string) returns (ok: bool)
      requires Valid()
      modifies this
      ensures Valid() && Took(Call.Key(key), ok)
    {
      if nodesStack == [] || root != Null || !nodesStack[|nodesStack| - 1].Dict? {
        return false;
      }
      ghost var before := Now();
      StepKeepsOrder(before, Call.Key(key));
      nodesStack := nodesStack + [Str(key)];
      assert Now() == Push(before, Str(key));
      return true;
    }

    method StartArray() returns (ok: bool)
      requires Valid()
      modifies this
      ensures Valid() && Took(Call.StartArray, ok)
    {
      if root != Null {
        return false;
      }
      if !(nodesStack == [] || nodesStack[|nodesStack| - 1].Array? || nodesStack[|nodesStack| - 1].Str?) {
        return false;
      }
      ghost var before := Now();
      OpeningIsTaken(before, Call.StartArray, Array([]));
      nodesStack := nodesStack + [Array([])];
      assert Now() == Push(before, Array([]));
      return true;
    }

    method StartDict() returns (ok: bool)
      requires Valid()
      modifies this
      ensures Valid() && Took(Call.StartDict, ok)
    {
      if root != Null {
        return false;
      }
      if !(nodesStack == [] || nodesStack[|nodesStack| - 1].Array? || nodesStack[|nodesStack| - 1].Str?) {
        return false;
      }
      ghost var before := Now();
      OpeningIsTaken(before, Call.StartDict, Dict([]));
      nodesStack := nodesStack + [Dict([])];
      assert Now() == Push(before, Dict([]));
      return true;
    }

    /** The inner call to Value comes after the pop; it never throws, so no throw leaves a popped stack behind. */
    method EndArray() returns (ok: bool)
      requires Valid()
      modifies this
      ensures Valid() && Took(Call.EndArray, ok)
    {
      if nodesStack == [] || !nodesStack[|nodesStack| - 1].Array? {
        return false;
      }
      if |nodesStack| == 1 {
        root := nodesStack[|nodesStack| - 1];
        nodesStack := nodesStack[..|nodesStack| - 1];
        return true;
      }
      CloseIsTaken(Now());
      var node := nodesStack[|nodesStack| - 1];
      nodesStack := nodesStack[..|nodesStack| - 1];
      ok := Value(node);
    }

    method EndDict() returns (ok: bool)
      requires Valid()
      modifies this
      ensures Valid() && Took(Call.EndDict, ok)
    {
      if nodesStack == [] || !nodesStack[|nodesStack| - 1].Dict? {
        return false;
      }
      if |nodesStack| == 1 {
        root := nodesStack[|nodesStack| - 1];
        nodesStack := nodesStack[..|nodesStack| - 1];
        return true;
      }
      CloseIsTaken(Now());
      var node := nodesStack[|nodesStack| - 1];
      nodesStack := nodesStack[..|nodesStack| - 1];
      ok := Value(node);
    }

    method Build() returns (r: Option<Node>)
      requires Valid()
      ensures r == BuilderLanguage.Build(Now())
    {
      if root == Null {
        return None;
      }
      if nodesStack != [] {
        return None;
      }
      return Some(root);
    }

    method Perform(call: Call) returns (ok: bool)
      requires Valid()
      modifies this
      ensures Valid() && Took(call, ok)
    {
      match call
      case Value(node) => ok := Value(node);
      case Key(key) => ok := Key(key);
      case StartArray => ok := StartArray();
      case EndArray => ok := EndArray();
      case StartDict => ok := StartDict();
      case EndDict => ok := EndDict();
    }
  }

  /** Makes all the calls on a fresh builder, catching what is thrown, and builds: the result is n exactly when the
      calls that the grammar lets through spell n. */
  method BuildFrom(calls: seq<Call>) returns (r: Option<Node>)
    ensures forall n :: r == Some(n) <==> SpellsOne(Kept(calls), n) && n != Null
  {
    var builder := new Builder();
    for m := 0 to |calls|
      invariant builder.Valid() && builder.Now() == RunOver(FRESH, calls[..m])
    {
      assert calls[..m + 1][..m] == calls[..m];
      var ok := builder.Perform(calls[m]);
    }
    assert calls[..|calls|] == calls;
    forall n ensures BuilderLanguage.Build(builder.Now()) == Some(n) <==> SpellsOne(Kept(calls), n) && n != Null {
      BuildsFromKept(calls, n);
    }
    r := builder.Build();
  }
}
