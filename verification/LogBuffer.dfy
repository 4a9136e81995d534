/** The ring of recent log lines behind the debug endpoint. */
module Diagnostics {
  /** The last `n` entries of `history`, or all of it when it is shorter. */
  function Suffix(history: seq<string>, n: nat): (r: seq<string>) {
    if |history| <= n then history else history[|history| - n..]
  }

  class LogBuffer {
    var data: seq<string>
    const cap: nat
    ghost var history: seq<string>  // every entry ever appended, oldest first

    ghost predicate Valid()
      reads this
    {
      cap > 0 && data == Suffix(history, cap)
    }

    constructor (limit: int)
      ensures Valid() && history == []
      ensures cap == if limit <= 0 then 100 else limit
    {
      cap := if limit <= 0 then 100 else limit;
      data := [];
      history := [];
    }

    method Append(entry: string)
      requires Valid()
      modifies this
      ensures Valid() && history == old(history) + [entry]
      ensures data == Push(old(data), cap, entry)
    {
      if |data| >= cap {
        data := data[1..];
      }
      data := data + [entry];
      history := history + [entry];
    }

    /** Copies the lines out: the array is new, so later appends cannot reach it. */
    method Snapshot() returns (out: array<string>)
      requires Valid()
      ensures fresh(out) && out[..] == Suffix(history, cap)
    {
      out := new string[|data|](i requires 0 <= i < |data| reads this => data[i]);
      assert out[..] == data;
    }
  }

  /** One append: make room by dropping the oldest entry, then add the new one. */
  function Push(data: seq<string>, cap: nat, entry: string): seq<string>
    requires cap > 0
  {
    (if |data| >= cap then data[1..] else data) + [entry]
  }

  /** Appending `entries` one by one. */
  function AppendAll(data: seq<string>, cap: nat, entries: seq<string>): (r: seq<string>)
    requires cap > 0
    decreases |entries|
  {
    if entries == [] then data
    else AppendAll(Push(data, cap, entries[0]), cap, entries[1..])
  }

  /** Dropping the head before each append keeps exactly the suffix of everything appended so far. */
  lemma {:induction false} RingIsSuffixOfHistory(history: seq<string>, cap: nat, entries: seq<string>)
    requires cap > 0
    ensures AppendAll(Suffix(history, cap), cap, entries) == Suffix(history + entries, cap)
    decreases |entries|
  {
    if entries == [] {
      assert history + entries == history;
    } else {
      assert Push(Suffix(history, cap), cap, entries[0]) == Suffix(history + [entries[0]], cap);
      RingIsSuffixOfHistory(history + [entries[0]], cap, entries[1..]);
      assert history + [entries[0]] + entries[1..] == history + entries;
    }
  }
}
