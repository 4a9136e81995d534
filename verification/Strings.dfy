/** The string operations the service relies on: white space, trimming, splitting and joining. */
module Strings {
  /** The characters with the Unicode White_Space property, which trimming removes. */
  predicate IsSpace(c: char) {
    || '\t' <= c <= '\r'
    || c == ' ' || c == '\U{85}' || c == '\U{A0}' || c == '\U{1680}'
    || '\U{2000}' <= c <= '\U{200A}'
    || c == '\U{2028}' || c == '\U{2029}' || c == '\U{202F}' || c == '\U{205F}' || c == '\U{3000}'
  }

  predicate AllSpace(s: string) {
    forall i | 0 <= i < |s| :: IsSpace(s[i])
  }

  /** No white space at either end. */
  predicate Trimmed(s: string) {
    s != "" ==> !IsSpace(s[0]) && !IsSpace(s[|s| - 1])
  }

  function TrimLeft(s: string): (r: string)
    ensures r != "" ==> !IsSpace(r[0])
  {
    if s != "" && IsSpace(s[0]) then TrimLeft(s[1..]) else s
  }

  function TrimRight(s: string): (r: string)
    ensures r != "" ==> !IsSpace(r[|r| - 1])
    ensures r <= s
  {
    if s != "" && IsSpace(s[|s| - 1]) then TrimRight(s[..|s| - 1]) else s
  }

  function Trim(s: string): (r: string)
    ensures Trimmed(r)
  {
    TrimRight(TrimLeft(s))
  }

  /** Only white space goes, and only at the ends: whatever surrounds a trimmed core, trimming finds the core. */
  lemma {:induction false} TrimFindsCore(before: string, core: string, after: string)
    requires AllSpace(before) && AllSpace(after) && Trimmed(core)
    ensures Trim(before + core + after) == core
    decreases |before| + |after|
  {
    var s := before + core + after;
    if before != "" {
      assert s[1..] == before[1..] + core + after;
      TrimFindsCore(before[1..], core, after);
    } else if core == "" {
      TrimAllSpace(s);
    } else {
      assert s[0] == core[0];
      TrimRightFindsCore(core, after);
      assert s == core + after;
    }
  }

  lemma {:induction false} TrimAllSpace(s: string)
    requires AllSpace(s)
    ensures TrimLeft(s) == ""
  {
    if s != "" {
      TrimAllSpace(s[1..]);
    }
  }

  lemma {:induction false} TrimRightFindsCore(core: string, after: string)
    requires AllSpace(after) && core != "" && Trimmed(core)
    ensures TrimRight(core + after) == core
    decreases |after|
  {
    var s := core + after;
    if after == "" {
      assert s == core;
    } else {
      assert s[..|s| - 1] == core + after[..|after| - 1];
      TrimRightFindsCore(core, after[..|after| - 1]);
    }
  }

  lemma {:induction false} TrimLeftDrops(s: string) returns (before: string)
    ensures AllSpace(before) && s == before + TrimLeft(s)
  {
    if s != "" && IsSpace(s[0]) {
      var rest := TrimLeftDrops(s[1..]);
      before := [s[0]] + rest;
      assert s == [s[0]] + s[1..];
    } else {
      before := "";
    }
  }

  lemma {:induction false} TrimRightDrops(s: string) returns (after: string)
    ensures AllSpace(after) && s == TrimRight(s) + after
  {
    if s != "" && IsSpace(s[|s| - 1]) {
      var rest := TrimRightDrops(s[..|s| - 1]);
      after := rest + [s[|s| - 1]];
      assert s == s[..|s| - 1] + [s[|s| - 1]];
    } else {
      after := "";
    }
  }

  /** Every string is its trimmed core between two runs of white space. */
  lemma TrimLeavesSpace(s: string) returns (before: string, after: string)
    ensures AllSpace(before) && AllSpace(after) && s == before + Trim(s) + after
  {
    before := TrimLeftDrops(s);
    var left := TrimLeft(s);
    after := TrimRightDrops(left);
    Reassociate(before, TrimRight(left), after);
  }

  lemma Reassociate<T>(a: seq<T>, b: seq<T>, c: seq<T>)
    ensures a + (b + c) == a + b + c
  {
  }

  /** The pieces of `s` between commas. */
  function Split(s: string): (parts: seq<string>)
    ensures parts != []
  {
    if s == "" then [""]
    else
      var rest := Split(s[1..]);
      if s[0] == ',' then [""] + rest else [[s[0]] + rest[0]] + rest[1..]
  }

  function Join(parts: seq<string>, sep: string): string {
    if parts == [] then ""
    else if |parts| == 1 then parts[0]
    else parts[0] + sep + Join(parts[1..], sep)
  }

  predicate CommaFree(s: string) {
    ',' !in s
  }

  /** Joining the pieces with commas gives the text back, and no piece holds a comma. */
  lemma {:induction false} JoinSplit(s: string)
    ensures Join(Split(s), ",") == s
    ensures forall i | 0 <= i < |Split(s)| :: CommaFree(Split(s)[i])
  {
    if s != "" {
      var rest := Split(s[1..]);
      JoinSplit(s[1..]);
      if s[0] == ',' {
        assert ([""] + rest)[1..] == rest;
      } else {
        var parts := [[s[0]] + rest[0]] + rest[1..];
        assert forall i | 0 < i < |parts| :: parts[i] == rest[i];
        assert parts[1..] == rest[1..];
        assert s == [s[0]] + s[1..];
      }
    }
  }

  /** And joining pieces without commas and splitting them again gives the pieces back. */
  lemma {:induction false} SplitJoin(parts: seq<string>)
    requires parts != [] && forall i | 0 <= i < |parts| :: CommaFree(parts[i])
    ensures Split(Join(parts, ",")) == parts
    decreases |parts|
  {
    if |parts| == 1 {
      SplitCommaFree(parts[0]);
    } else {
      SplitJoin(parts[1..]);
      SplitAtComma(parts[0], Join(parts[1..], ","));
      assert parts[0] + "," + Join(parts[1..], ",") == Join(parts, ",");
    }
  }

  lemma {:induction false} SplitCommaFree(s: string)
    requires CommaFree(s)
    ensures Split(s) == [s]
  {
    if s != "" {
      SplitCommaFree(s[1..]);
      assert s == [s[0]] + s[1..];
    }
  }

  /** A comma-free head becomes the first piece, and the pieces after the comma follow. */
  lemma {:induction false} SplitAtComma(head: string, tail: string)
    requires CommaFree(head)
    ensures Split(head + "," + tail) == [head] + Split(tail)
  {
    var s := head + "," + tail;
    if head == "" {
      assert s[1..] == tail;
    } else {
      assert s[1..] == head[1..] + "," + tail;
      SplitAtComma(head[1..], tail);
      assert Split(s) == [[s[0]] + head[1..]] + Split(tail);
      assert [s[0]] + head[1..] == head;
    }
  }
}
