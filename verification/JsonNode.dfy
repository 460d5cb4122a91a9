/** JSON values as json.h holds them. */
module JsonNode {
  import opened Strings

  const INT_MIN := -0x8000_0000
  const INT_MAX := 0x7FFF_FFFF

  /** A dictionary is the ordered map of the program: its entries in increasing order of their keys.
      A double is kept as the literal it was read from. */
  datatype Node =
    | Null
    | Array(items: seq<Node>)
    | Dict(entries: seq<Entry>)
    | Bool(flag: bool)
    | Int(number: int)
    | Double(literal: string)
    | Str(text: string)

  datatype Entry = Entry(key: string, value: Node)

  predicate HasKey(entries: seq<Entry>, key: string) {
    exists m :: 0 <= m < |entries| && entries[m].key == key
  }

  predicate Sorted(entries: seq<Entry>) {
    forall a, b :: 0 <= a < b < |entries| ==> Less(entries[a].key, entries[b].key)
  }

  /** Inserts in order; a key that is already there keeps its value. */
  function Emplace(entries: seq<Entry>, key: string, value: Node): seq<Entry> {
    if entries == [] || Less(key, entries[0].key) then [Entry(key, value)] + entries
    else if entries[0].key == key then entries
    else [entries[0]] + Emplace(entries[1..], key, value)
  }

  lemma {:induction false} EmplaceMembers(entries: seq<Entry>, key: string, value: Node, e: Entry)
    requires Sorted(entries)
    ensures e in Emplace(entries, key, value) <==> e in entries || (e == Entry(key, value) && !HasKey(entries, key))
  {
    if entries == [] {
    } else if Less(key, entries[0].key) {
      KeyBelow(entries, key);
    } else if entries[0].key == key {
      assert HasKey(entries, key);
    } else {
      EmplaceMembers(entries[1..], key, value, e);
      assert entries == [entries[0]] + entries[1..];
      if HasKey(entries, key) {
        var m :| 0 <= m < |entries| && entries[m].key == key;
        assert entries[1..][m - 1].key == key;
      }
    }
  }

  lemma KeyBelow(entries: seq<Entry>, key: string)
    requires Sorted(entries) && entries != [] && Less(key, entries[0].key)
    ensures !HasKey(entries, key) && forall m :: 0 <= m < |entries| ==> Less(key, entries[m].key)
  {
    forall m | 0 <= m < |entries| ensures Less(key, entries[m].key) {
      if m > 0 {
        LessTransitive(key, entries[0].key, entries[m].key);
      }
    }
    LessIrreflexive(key);
  }

  lemma {:induction false} EmplaceOrdered(entries: seq<Entry>, key: string, value: Node)
    requires Sorted(entries)
    ensures Sorted(Emplace(entries, key, value))
  {
    if entries == [] {
    } else if Less(key, entries[0].key) {
      KeyBelow(entries, key);
    } else if entries[0].key != key {
      EmplaceOrdered(entries[1..], key, value);
      LessTotal(key, entries[0].key);
      var rest := Emplace(entries[1..], key, value);
      forall m | 0 <= m < |rest| ensures Less(entries[0].key, rest[m].key) {
        EmplaceMembers(entries[1..], key, value, rest[m]);
      }
    }
  }

  lemma EmplaceSorted(entries: seq<Entry>, key: string, value: Node)
    requires Sorted(entries)
    ensures Sorted(Emplace(entries, key, value))
    ensures forall e :: e in Emplace(entries, key, value) <==>
                        e in entries || (e == Entry(key, value) && !HasKey(entries, key))
  {
    EmplaceOrdered(entries, key, value);
    forall e ensures e in Emplace(entries, key, value) <==>
                     e in entries || (e == Entry(key, value) && !HasKey(entries, key))
    {
      EmplaceMembers(entries, key, value, e);
    }
  }

  /** A key above all others goes to the end. */
  lemma {:induction false} EmplaceLast(entries: seq<Entry>, key: string, value: Node)
    requires forall m :: 0 <= m < |entries| ==> Less(entries[m].key, key)
    ensures !HasKey(entries, key)
    ensures Emplace(entries, key, value) == entries + [Entry(key, value)]
  {
    LessIrreflexive(key);
    if entries != [] {
      if Less(key, entries[0].key) {
        LessTransitive(key, entries[0].key, key);
      }
      EmplaceLast(entries[1..], key, value);
    }
  }

  /** What the program can hold: 32-bit integers and, at every depth, maps in order. */
  predicate WellFormed(n: Node) {
    match n
    case Int(i) => INT_MIN <= i <= INT_MAX
    case Array(items) => forall m :: 0 <= m < |items| ==> WellFormed(items[m])
    case Dict(entries) => Sorted(entries) && forall m :: 0 <= m < |entries| ==> WellFormed(entries[m].value)
    case _ => true
  }

  predicate NoDoubles(n: Node) {
    match n
    case Double(_) => false
    case Array(items) => forall m :: 0 <= m < |items| ==> NoDoubles(items[m])
    case Dict(entries) => forall m :: 0 <= m < |entries| ==> NoDoubles(entries[m].value)
    case _ => true
  }
}
