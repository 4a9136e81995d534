/** Comma-separated settings: hosts, origins, methods and headers. */
module Config {
  import opened Strings

  /** What a comma-separated setting means: its pieces, trimmed, in order, without the blank ones. */
  function Items(parts: seq<string>): (items: seq<string>) {
    if parts == [] then [] else Item(parts[0]) + Items(parts[1..])
  }

  function Item(part: string): (item: seq<string>) {
    var trim := Trim(part);
    if trim != "" then [trim] else []
  }

  /** A setting as the parser produces it: non-empty, trimmed, and free of the separator. */
  predicate Clean(item: string) {
    item != "" && Trimmed(item) && CommaFree(item)
  }

  /** The parser. The source's nil result for the empty string is the empty list. */
  method SplitAndTrim(val: string) returns (out: seq<string>)
    ensures out == Items(Split(val))
  {
    if val == "" {
      return [];
    }
    var parts := Split(val);
    out := [];
    for i := 0 to |parts|
      invariant out == Items(parts[..i])
    {
      var trim := Trim(parts[i]);
      ItemsAppend(parts[..i], parts[i]);
      assert parts[..i] + [parts[i]] == parts[..i + 1];
      if trim != "" {
        out := out + [trim];
      }
    }
    assert parts[..|parts|] == parts;
  }

  lemma {:induction false} ItemsAppend(parts: seq<string>, part: string)
    ensures Items(parts + [part]) == Items(parts) + Item(part)
  {
    if parts == [] {
      ItemsCons(part, []);
      assert [] + [part] == [part] + [];
    } else {
      var first, rest := parts[0], parts[1..];
      ItemsAppend(rest, part);
      assert parts + [part] == [first] + (rest + [part]);
      ItemsCons(first, rest + [part]);
      Reassociate(Item(first), Items(rest), Item(part));
    }
  }

  lemma ItemsCons(part: string, parts: seq<string>)
    ensures Items([part] + parts) == Item(part) + Items(parts)
  {
    assert ([part] + parts)[1..] == parts;
  }

  lemma {:induction false} TrimStaysCommaFree(s: string)
    requires CommaFree(s)
    ensures CommaFree(Trim(s))
  {
    var before, after := TrimLeavesSpace(s);
    assert forall c | c in Trim(s) :: c in before + Trim(s) + after;
  }

  /** The parser only ever yields clean items. */
  lemma {:induction false} ItemsAreClean(parts: seq<string>)
    requires forall i | 0 <= i < |parts| :: CommaFree(parts[i])
    ensures forall i | 0 <= i < |Items(parts)| :: Clean(Items(parts)[i])
  {
    if parts != [] {
      TrimStaysCommaFree(parts[0]);
      ItemsAreClean(parts[1..]);
    }
  }

  /** The separator printed between items: the parser splits at its comma and trims its blank. */
  const PRINTED := ", "

  /** What the parser finds after the first comma of a printed list: every item behind a blank. */
  function Blanked(items: seq<string>): seq<string> {
    if items == [] then [] else [" " + items[0]] + Blanked(items[1..])
  }

  lemma {:induction false} SplitPrinted(items: seq<string>)
    requires items != [] && forall i | 0 <= i < |items| :: CommaFree(items[i])
    ensures Split(Join(items, PRINTED)) == [items[0]] + Blanked(items[1..])
    decreases |items|
  {
    if |items| == 1 {
      SplitCommaFree(items[0]);
      assert items[1..] == [];
    } else {
      var rest := Join(items[1..], PRINTED);
      SplitPrinted(items[1..]);
      SplitAtComma(items[0], " " + rest);
      assert Join(items, PRINTED) == items[0] + "," + (" " + rest);
      SplitBlank(rest);
      assert Blanked(items[1..]) == [" " + items[1]] + Blanked(items[1..][1..]);
    }
  }

  /** A blank in front of a text goes to its first piece. */
  lemma SplitBlank(rest: string)
    ensures Split(" " + rest) == [" " + Split(rest)[0]] + Split(rest)[1..]
  {
    assert (" " + rest)[1..] == rest;
  }

  lemma ItemOfClean(item: string)
    requires Clean(item)
    ensures Item(item) == [item] && Item(" " + item) == [item]
  {
    TrimFindsCore("", item, "");
    TrimFindsCore(" ", item, "");
    assert "" + item + "" == item && " " + item + "" == " " + item;
  }

  lemma {:induction false} ItemsOfBlanked(items: seq<string>)
    requires forall i | 0 <= i < |items| :: Clean(items[i])
    ensures Items(Blanked(items)) == items
  {
    if items != [] {
      ItemOfClean(items[0]);
      ItemsOfBlanked(items[1..]);
      ItemsCons(" " + items[0], Blanked(items[1..]));
    }
  }

  lemma EmptySetting(items: seq<string>)
    requires items == []
    ensures Items(Split(Join(items, PRINTED))) == []
  {
    assert Join(items, PRINTED) == "" && Split("") == [""];
    TrimAllSpace("");
    assert Item("") == [];
    ItemsCons("", []);
  }

  /** Printing a list of clean items and parsing it gives the list back. */
  lemma {:induction false} ParsePrinted(items: seq<string>)
    requires forall i | 0 <= i < |items| :: Clean(items[i])
    ensures Items(Split(Join(items, PRINTED))) == items
  {
    if items == [] {
      EmptySetting(items);
    } else {
      SplitPrinted(items);
      ParseRest(items[0], items[1..]);
      assert items == [items[0]] + items[1..];
    }
  }

  lemma {:induction false} ParseRest(item: string, rest: seq<string>)
    requires Clean(item) && forall i | 0 <= i < |rest| :: Clean(rest[i])
    ensures Items([item] + Blanked(rest)) == [item] + rest
  {
    ItemOfClean(item);
    ItemsOfBlanked(rest);
    ItemsCons(item, Blanked(rest));
  }

  /** Parsing, printing and parsing again gives what the first parse gave, for every setting. */
  lemma {:induction false} ParsePrintParse(val: string)
    ensures Items(Split(Join(Items(Split(val)), PRINTED))) == Items(Split(val))
  {
    JoinSplit(val);
    ItemsAreClean(Split(val));
    ParsePrinted(Items(Split(val)));
  }

  // ---------------------------------------------------------------------------------------------
  // Settings as people write them
  // ---------------------------------------------------------------------------------------------

  /** One piece of a setting: a word between blanks, or nothing but blanks. */
  datatype Piece = Piece(before: string, word: string, after: string) {
    function Written(): string { before + word + after }

    predicate Valid() {
      && Blanks(before) && Blanks(after) && CommaFree(word)
      && (word != "" ==> '!' <= word[0] <= '~' && '!' <= word[|word| - 1] <= '~')
    }
  }

  predicate Blanks(s: string) {
    forall i | 0 <= i < |s| :: s[i] == ' ' || s[i] == '\t' || s[i] == '\n' || s[i] == '\r'
  }

  function Words(pieces: seq<Piece>): seq<string> {
    if pieces == [] then []
    else (if pieces[0].word == "" then [] else [pieces[0].word]) + Words(pieces[1..])
  }

  function Written(pieces: seq<Piece>): seq<string> {
    if pieces == [] then [] else [pieces[0].Written()] + Written(pieces[1..])
  }

  /** Whatever blanks stand before and after the words between the commas, the words are what is found, in order. */
  lemma WordsAreFound(pieces: seq<Piece>)
    requires pieces != [] && forall i | 0 <= i < |pieces| :: pieces[i].Valid()
    ensures Items(Split(Join(Written(pieces), ","))) == Words(pieces)
  {
    WrittenCommaFree(pieces);
    SplitJoin(Written(pieces));
    ItemsOfPieces(pieces);
  }

  lemma {:induction false} WrittenCommaFree(pieces: seq<Piece>)
    requires forall i | 0 <= i < |pieces| :: pieces[i].Valid()
    ensures |Written(pieces)| == |pieces| && forall i | 0 <= i < |pieces| :: CommaFree(Written(pieces)[i])
  {
    if pieces != [] {
      WrittenCommaFree(pieces[1..]);
      PieceCommaFree(pieces[0]);
    }
  }

  lemma PieceCommaFree(piece: Piece)
    requires piece.Valid()
    ensures CommaFree(piece.Written())
  {
    var s := piece.before + piece.word;
    assert ',' !in s;
    assert piece.Written() == s + piece.after;
  }

  lemma {:induction false} ItemsOfPieces(pieces: seq<Piece>)
    requires forall i | 0 <= i < |pieces| :: pieces[i].Valid()
    ensures Items(Written(pieces)) == Words(pieces)
  {
    if pieces != [] {
      ItemOfPiece(pieces[0]);
      ItemsOfPieces(pieces[1..]);
      ItemsCons(pieces[0].Written(), Written(pieces[1..]));
    }
  }

  lemma ItemOfPiece(piece: Piece)
    requires piece.Valid()
    ensures Item(piece.Written()) == if piece.word == "" then [] else [piece.word]
  {
    BlanksAreSpace(piece.before);
    BlanksAreSpace(piece.after);
    if piece.word != "" {
      assert !IsSpace(piece.word[0]) && !IsSpace(piece.word[|piece.word| - 1]);
    }
    TrimFindsCore(piece.before, piece.word, piece.after);
  }

  lemma BlanksAreSpace(s: string)
    requires Blanks(s)
    ensures AllSpace(s)
  {
  }
}
