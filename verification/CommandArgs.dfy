/** The quoted command splitter: a character loop with two flags. */
module CommandArgs {

  datatype Mode = Plain | InSingle | InDouble

  /** What is still to be split off, with the argument collected so far. */
  function Scan(command: string, current: string, mode: Mode): seq<string> {
    if |command| == 0 then
      if |current| > 0 then [current] else []
    else
      var ch, rest := command[0], command[1..];
      if ch == '\'' && mode != InDouble then Scan(rest, current, if mode == InSingle then Plain else InSingle)
      else if ch == '"' && mode != InSingle then Scan(rest, current, if mode == InDouble then Plain else InDouble)
      else if ch == ' ' && mode == Plain then (if |current| > 0 then [current] else []) + Scan(rest, "", Plain)
      else Scan(rest, current + [ch], mode)
  }

  function ModeOf(inSingle: bool, inDouble: bool): Mode {
    if inSingle then InSingle else if inDouble then InDouble else Plain
  }

  method ParseCommandArgs(command: string) returns (args: seq<string>)
    ensures args == Scan(command, "", Plain)
    ensures forall k :: 0 <= k < |args| ==> |args[k]| > 0
  {
    args := [];
    var current := "";
    var inSingle, inDouble := false, false;
    for i := 0 to |command|
      invariant !(inSingle && inDouble)
      invariant args + Scan(command[i..], current, ModeOf(inSingle, inDouble)) == Scan(command, "", Plain)
      invariant forall k :: 0 <= k < |args| ==> |args[k]| > 0
    {
      var ch := command[i];
      assert command[i..][1..] == command[i + 1..];
      if ch == '\'' && !inDouble {
        inSingle := !inSingle;
      } else if ch == '"' && !inSingle {
        inDouble := !inDouble;
      } else if ch == ' ' && !inSingle && !inDouble {
        if |current| > 0 {
          args := args + [current];
          current := "";
        }
      } else {
        current := current + [ch];
      }
    }
    if |current| > 0 {
      args := args + [current];
    }
  }

  // ---------- writing a command ----------

  /** A stretch of an argument: bare, or wrapped in a quote character. */
  datatype Piece = Bare(text: string) | Wrapped(text: string, quote: char)

  /** An argument as pieces written one after the other, and the number of spaces after it. */
  datatype Word = Word(pieces: seq<Piece>, gap: nat)

  ghost predicate Writable(p: Piece) {
    match p
    case Bare(text) => '\'' !in text && '"' !in text && ' ' !in text
    case Wrapped(text, quote) => (quote == '\'' || quote == '"') && quote !in text
  }

  function RenderPiece(p: Piece): string {
    if p.Bare? then p.text else [p.quote] + p.text + [p.quote]
  }

  function RenderPieces(pieces: seq<Piece>): string {
    if |pieces| == 0 then "" else RenderPiece(pieces[0]) + RenderPieces(pieces[1..])
  }

  function Text(pieces: seq<Piece>): string {
    if |pieces| == 0 then "" else pieces[0].text + Text(pieces[1..])
  }

  function Spaces(n: nat): string {
    if n == 0 then "" else " " + Spaces(n - 1)
  }

  function Render(words: seq<Word>): string {
    if |words| == 0 then "" else RenderPieces(words[0].pieces) + (Spaces(words[0].gap) + Render(words[1..]))
  }

  /** Every piece can be written, and arguments are kept apart by at least one space. */
  ghost predicate WellWritten(words: seq<Word>) {
    && (forall i, j :: 0 <= i < |words| && 0 <= j < |words[i].pieces| ==> Writable(words[i].pieces[j]))
    && (forall i :: 0 <= i < |words| - 1 ==> words[i].gap >= 1)
  }

  function Texts(words: seq<Word>): (r: seq<string>)
    ensures |r| == |words| && forall i :: 0 <= i < |r| ==> r[i] == Text(words[i].pieces)
  {
    if |words| == 0 then [] else [Text(words[0].pieces)] + Texts(words[1..])
  }

  function NonEmpty(ss: seq<string>): seq<string> {
    if |ss| == 0 then [] else (if |ss[0]| > 0 then [ss[0]] else []) + NonEmpty(ss[1..])
  }

  // ---------- splitting undoes writing ----------

  lemma {:induction false} ScanBare(text: string, rest: string, current: string)
    requires '\'' !in text && '"' !in text && ' ' !in text
    ensures Scan(text + rest, current, Plain) == Scan(rest, current + text, Plain)
  {
    if |text| == 0 {
      assert text + rest == rest && current + text == current;
    } else {
      assert text[0] in text;
      assert (text + rest)[1..] == text[1..] + rest;
      ScanBare(text[1..], rest, current + [text[0]]);
      assert current + [text[0]] + text[1..] == current + text;
    }
  }

  lemma {:induction false} ScanWrapped(text: string, rest: string, current: string, quote: char)
    requires (quote == '\'' || quote == '"') && quote !in text
    ensures var mode := if quote == '\'' then InSingle else InDouble;
      Scan(text + [quote] + rest, current, mode) == Scan(rest, current + text, Plain)
  {
    var all := text + [quote] + rest;
    if |text| == 0 {
      assert all[0] == quote && all[1..] == rest && current + text == current;
    } else {
      assert text[0] in text && all[0] == text[0];
      assert all[1..] == text[1..] + [quote] + rest;
      ScanWrapped(text[1..], rest, current + [text[0]], quote);
      assert current + [text[0]] + text[1..] == current + text;
    }
  }

  lemma ScanPiece(p: Piece, rest: string, current: string)
    requires Writable(p)
    ensures Scan(RenderPiece(p) + rest, current, Plain) == Scan(rest, current + p.text, Plain)
  {
    if p.Bare? {
      ScanBare(p.text, rest, current);
    } else {
      var all := RenderPiece(p) + rest;
      assert all[0] == p.quote && all[1..] == p.text + [p.quote] + rest;
      ScanWrapped(p.text, rest, current, p.quote);
    }
  }

  lemma FirstPiece(pieces: seq<Piece>, rest: string, current: string)
    requires |pieces| > 0
    ensures RenderPieces(pieces) + rest == RenderPiece(pieces[0]) + (RenderPieces(pieces[1..]) + rest)
    ensures current + Text(pieces) == (current + pieces[0].text) + Text(pieces[1..])
  {
    hide RenderPiece;
  }

  lemma NoPieces(rest: string, current: string)
    ensures RenderPieces([]) + rest == rest && current + Text([]) == current
  {}

  lemma {:induction false} ScanPieces(pieces: seq<Piece>, rest: string, current: string)
    requires forall j :: 0 <= j < |pieces| ==> Writable(pieces[j])
    ensures Scan(RenderPieces(pieces) + rest, current, Plain) == Scan(rest, current + Text(pieces), Plain)
  {
    hide Scan, RenderPiece, RenderPieces, Text, Writable;
    if |pieces| == 0 {
      NoPieces(rest, current);
    } else {
      FirstPiece(pieces, rest, current);
      ScanPiece(pieces[0], RenderPieces(pieces[1..]) + rest, current);
      ScanPieces(pieces[1..], rest, current + pieces[0].text);
    }
  }

  lemma ScanSpace(rest: string, current: string)
    ensures Scan(" " + rest, current, Plain) == (if |current| > 0 then [current] else []) + Scan(rest, "", Plain)
  {
    assert (" " + rest)[1..] == rest;
  }

  lemma {:induction false} ScanSpaces(n: nat, rest: string, current: string)
    requires n >= 1
    ensures Scan(Spaces(n) + rest, current, Plain) == (if |current| > 0 then [current] else []) + Scan(rest, "", Plain)
  {
    hide Scan;
    var later := Spaces(n - 1) + rest;
    assert Spaces(n) + rest == " " + later;
    ScanSpace(later, current);
    if n == 1 {
      assert later == rest;
    } else {
      ScanSpaces(n - 1, rest, "");
    }
  }

  /** Splitting a written command gives the texts of its arguments in order, without the empty ones. */
  lemma {:induction false} SplitUndoesWriting(words: seq<Word>)
    requires WellWritten(words)
    ensures Scan(Render(words), "", Plain) == NonEmpty(Texts(words))
  {
    if |words| > 0 {
      hide Scan, RenderPieces, Text, Spaces;
      var text, gap, later := Text(words[0].pieces), Spaces(words[0].gap), Render(words[1..]);
      ScanPieces(words[0].pieces, gap + later, "");
      assert "" + text == text;
      SplitUndoesWriting(words[1..]) by {
        assert forall i :: 0 <= i < |words| - 1 ==> words[1..][i] == words[i + 1];
      }
      assert Texts(words)[1..] == Texts(words[1..]);
      if words[0].gap >= 1 {
        ScanSpaces(words[0].gap, later, text);
      } else {
        ScanEnd(words, text);
      }
    }
  }

  lemma {:induction false} NonEmptyLength(ss: seq<string>)
    ensures |NonEmpty(ss)| <= |ss|
    ensures NonEmpty(ss) == ss <==> forall i :: 0 <= i < |ss| ==> |ss[i]| > 0
  {
    if |ss| > 0 {
      NonEmptyLength(ss[1..]);
      assert ss == [ss[0]] + ss[1..];
      assert forall i :: 1 <= i < |ss| ==> ss[i] == ss[1..][i - 1];
    }
  }

  lemma ScanEnd(words: seq<Word>, text: string)
    requires |words| == 1 && words[0].gap == 0
    ensures Scan(Spaces(words[0].gap) + Render(words[1..]), text, Plain) == if |text| > 0 then [text] else []
    ensures Scan(Render(words[1..]), "", Plain) == []
  {}

  /** The round trip is exact if and only if no argument is empty: a quoted empty argument is dropped. */
  lemma RoundTripIff(words: seq<Word>)
    requires WellWritten(words)
    ensures Scan(Render(words), "", Plain) == Texts(words) <==>
              forall i :: 0 <= i < |words| ==> |Text(words[i].pieces)| > 0
  {
    SplitUndoesWriting(words);
    NonEmptyLength(Texts(words));
  }

  /** Leading spaces do not matter. */
  lemma {:induction false} LeadingSpaces(n: nat, command: string)
    ensures Scan(Spaces(n) + command, "", Plain) == Scan(command, "", Plain)
  {
    if n == 0 {
      assert Spaces(0) + command == command;
    } else {
      ScanSpaces(n, command, "");
    }
  }

  // ---------- every command ----------

  /** What may stand at the end: an argument whose last quote is never closed. */
  datatype Open = Closed | Unclosed(pieces: seq<Piece>, quote: char, tail: string)

  function RenderOpen(open: Open): string {
    match open
    case Closed => ""
    case Unclosed(pieces, quote, tail) => RenderPieces(pieces) + ([quote] + tail)
  }

  /** The last argument of a command with an open quote: everything up to the end belongs to it. */
  function OpenText(open: Open): seq<string> {
    match open
    case Closed => []
    case Unclosed(pieces, quote, tail) => if |Text(pieces) + tail| > 0 then [Text(pieces) + tail] else []
  }

  ghost predicate OpenOk(open: Open) {
    open.Unclosed? ==>
      && (forall j :: 0 <= j < |open.pieces| ==> Writable(open.pieces[j]))
      && (open.quote == '\'' || open.quote == '"') && open.quote !in open.tail
  }

  /** The command is some spaces, these arguments, and perhaps one that is left open. */
  ghost predicate IsWriting(command: string, lead: nat, words: seq<Word>, open: Open) {
    && command == Spaces(lead) + (Render(words) + RenderOpen(open))
    && WellWritten(words) && OpenOk(open)
    && (open.Unclosed? && |words| > 0 ==> words[|words| - 1].gap >= 1)
  }

  lemma RenderFirst(words: seq<Word>, rest: string)
    requires |words| > 0
    ensures Render(words) + rest
         == RenderPieces(words[0].pieces) + (Spaces(words[0].gap) + (Render(words[1..]) + rest))
  {
    hide RenderPieces, Spaces;
  }

  lemma LaterWords(words: seq<Word>)
    requires WellWritten(words) && |words| > 0
    ensures WellWritten(words[1..]) && forall j :: 0 <= j < |words[0].pieces| ==> Writable(words[0].pieces[j])
    ensures Texts(words) == [Text(words[0].pieces)] + Texts(words[1..])
  {
    hide Writable;
    assert forall i :: 0 <= i < |words| - 1 ==> words[1..][i] == words[i + 1];
  }

  lemma NonEmptyFirst(text: string, texts: seq<string>)
    ensures NonEmpty([text] + texts) == (if |text| > 0 then [text] else []) + NonEmpty(texts)
  {
    assert ([text] + texts)[1..] == texts;
  }

  lemma ScanFirstWord(words: seq<Word>, rest: string)
    requires WellWritten(words) && |words| > 0 && words[0].gap >= 1
    ensures var text := Text(words[0].pieces);
      Scan(Render(words) + rest, "", Plain)
      == (if |text| > 0 then [text] else []) + Scan(Render(words[1..]) + rest, "", Plain)
  {
    var text, later := Text(words[0].pieces), Render(words[1..]) + rest;
    RenderFirst(words, rest);
    LaterWords(words);
    hide Scan, RenderPieces, Text, Texts, Spaces, Render, NonEmpty, WellWritten, Writable;
    ScanPieces(words[0].pieces, Spaces(words[0].gap) + later, "");
    assert "" + text == text;
    ScanSpaces(words[0].gap, later, text);
  }

  lemma {:induction false} ScanWords(words: seq<Word>, rest: string)
    requires WellWritten(words) && (|words| > 0 ==> words[|words| - 1].gap >= 1)
    ensures Scan(Render(words) + rest, "", Plain) == NonEmpty(Texts(words)) + Scan(rest, "", Plain)
  {
    hide *;
    if |words| == 0 {
      NoWords(words);
      assert Render(words) + rest == rest;
    } else {
      LaterWords(words);
      FirstGap(words);
      ScanFirstWord(words, rest);
      NonEmptyFirst(Text(words[0].pieces), Texts(words[1..]));
      ScanWords(words[1..], rest);
    }
  }

  lemma NoWords(words: seq<Word>)
    requires |words| == 0
    ensures Render(words) == "" && NonEmpty(Texts(words)) == []
  {}

  lemma FirstGap(words: seq<Word>)
    requires WellWritten(words) && |words| > 0 && words[|words| - 1].gap >= 1
    ensures words[0].gap >= 1 && (|words| > 1 ==> words[1..][|words| - 2].gap >= 1)
  {
    hide Writable;
  }

  lemma {:induction false} ScanUnclosed(tail: string, current: string, quote: char)
    requires (quote == '\'' || quote == '"') && quote !in tail
    ensures Scan(tail, current, if quote == '\'' then InSingle else InDouble)
         == if |current + tail| > 0 then [current + tail] else []
  {
    if |tail| > 0 {
      ScanUnclosed(tail[1..], current + [tail[0]], quote);
      assert tail[0] in tail;
      assert current + [tail[0]] + tail[1..] == current + tail;
    } else {
      assert current + tail == current;
    }
  }

  lemma ScanOpen(open: Open)
    requires OpenOk(open)
    ensures Scan(RenderOpen(open), "", Plain) == OpenText(open)
  {
    if open.Unclosed? {
      ScanPieces(open.pieces, [open.quote] + open.tail, "");
      assert ([open.quote] + open.tail)[1..] == open.tail;
      assert "" + Text(open.pieces) == Text(open.pieces);
      ScanUnclosed(open.tail, Text(open.pieces), open.quote);
    }
  }

  /** However a command is written, quotes that are never closed included, it is split into the texts of its arguments
      without the empty ones; an open quote reaches to the end. */
  lemma SplitOfWriting(command: string, lead: nat, words: seq<Word>, open: Open)
    requires IsWriting(command, lead, words, open)
    ensures Scan(command, "", Plain) == NonEmpty(Texts(words)) + OpenText(open)
  {
    hide Scan, Render, RenderOpen, Texts, NonEmpty, OpenText, Spaces;
    LeadingSpaces(lead, Render(words) + RenderOpen(open));
    if open.Closed? {
      NoOpenText();
      assert Render(words) + RenderOpen(open) == Render(words);
      assert NonEmpty(Texts(words)) + OpenText(open) == NonEmpty(Texts(words));
      SplitUndoesWriting(words);
    } else {
      ScanOpen(open);
      ScanWords(words, RenderOpen(open));
    }
  }

  lemma NoOpenText()
    ensures RenderOpen(Closed) == "" && OpenText(Closed) == []
  {}

  // ---------- every command has a writing ----------

  lemma PieceBeforeWords(p: Piece, words: seq<Word>, rest: string) returns (longer: seq<Word>)
    requires Writable(p) && WellWritten(words) && |words| > 0
    ensures |longer| == |words| && WellWritten(longer) && longer[|longer| - 1].gap == words[|words| - 1].gap
    ensures Render(longer) + rest == RenderPiece(p) + (Render(words) + rest)
  {
    longer := [Word([p] + words[0].pieces, words[0].gap)] + words[1..];
    LongerIsWritten(p, words, longer);
    LongerRenders(p, words, longer, rest);
    hide *;
  }

  lemma LongerRenders(p: Piece, words: seq<Word>, longer: seq<Word>, rest: string)
    requires |words| > 0 && longer == [Word([p] + words[0].pieces, words[0].gap)] + words[1..]
    ensures Render(longer) + rest == RenderPiece(p) + (Render(words) + rest)
  {
    hide *;
    RenderFirst(words, rest);
    RenderFirst(longer, rest);
    assert longer[1..] == words[1..];
    var later := Spaces(words[0].gap) + (Render(words[1..]) + rest);
    PieceFirst(p, words[0].pieces);
    Associates(RenderPiece(p), RenderPieces(words[0].pieces), later);
  }

  lemma Associates(a: string, b: string, c: string)
    ensures (a + b) + c == a + (b + c)
  {}

  lemma PieceFirst(p: Piece, pieces: seq<Piece>)
    ensures RenderPieces([p] + pieces) == RenderPiece(p) + RenderPieces(pieces)
  {
    hide RenderPiece;
    assert ([p] + pieces)[1..] == pieces;
  }

  lemma LongerIsWritten(p: Piece, words: seq<Word>, longer: seq<Word>)
    requires Writable(p) && WellWritten(words) && |words| > 0
    requires longer == [Word([p] + words[0].pieces, words[0].gap)] + words[1..]
    ensures WellWritten(longer)
  {
    hide Writable;
    forall i, j | 0 <= i < |longer| && 0 <= j < |longer[i].pieces| ensures Writable(longer[i].pieces[j]) {
      assert i > 0 ==> longer[i] == words[i];
      assert i == 0 && j > 0 ==> longer[i].pieces[j] == words[0].pieces[j - 1];
    }
    assert forall i :: 0 <= i < |longer| ==> longer[i].gap == words[i].gap;
  }

  lemma PieceBeforeSpaces(p: Piece, lead: nat, words: seq<Word>, rest: string) returns (longer: seq<Word>)
    requires Writable(p) && WellWritten(words) && (lead >= 1 || |words| == 0)
    ensures |longer| == |words| + 1 && WellWritten(longer)
    ensures longer[|longer| - 1].gap == if |words| == 0 then lead else words[|words| - 1].gap
    ensures Render(longer) + rest == RenderPiece(p) + (Spaces(lead) + (Render(words) + rest))
  {
    longer := [Word([p], lead)] + words;
    NewWordIsWritten(p, lead, words, longer);
    NewWordRenders(p, lead, words, longer, rest);
    hide *;
  }

  lemma NewWordRenders(p: Piece, lead: nat, words: seq<Word>, longer: seq<Word>, rest: string)
    requires longer == [Word([p], lead)] + words
    ensures Render(longer) + rest == RenderPiece(p) + (Spaces(lead) + (Render(words) + rest))
  {
    hide *;
    RenderFirst(longer, rest);
    assert longer[1..] == words;
    SinglePiece(p);
  }

  lemma SinglePiece(p: Piece)
    ensures RenderPieces([p]) == RenderPiece(p)
  {
    hide RenderPiece;
    assert RenderPieces([p][1..]) == "";
  }

  lemma NewWordIsWritten(p: Piece, lead: nat, words: seq<Word>, longer: seq<Word>)
    requires Writable(p) && WellWritten(words) && (lead >= 1 || |words| == 0)
    requires longer == [Word([p], lead)] + words
    ensures WellWritten(longer)
  {
    hide Writable;
    forall i, j | 0 <= i < |longer| && 0 <= j < |longer[i].pieces| ensures Writable(longer[i].pieces[j]) {
      assert i > 0 ==> longer[i] == words[i - 1];
    }
    assert forall i :: 0 < i < |longer| ==> longer[i].gap == words[i - 1].gap;
  }

  lemma PieceBeforeOpen(p: Piece, open: Open) returns (longer: Open)
    requires Writable(p) && OpenOk(open) && open.Unclosed?
    ensures OpenOk(longer) && longer.Unclosed? && RenderOpen(longer) == RenderPiece(p) + RenderOpen(open)
  {
    longer := Unclosed([p] + open.pieces, open.quote, open.tail);
    assert longer.pieces[1..] == open.pieces;
    hide RenderPiece;
  }

  /** A piece in front of a written command gives a written command. */
  lemma PieceInFront(p: Piece, command: string, lead: nat, words: seq<Word>, open: Open)
    returns (words': seq<Word>, open': Open)
    requires Writable(p) && IsWriting(command, lead, words, open)
    ensures IsWriting(RenderPiece(p) + command, 0, words', open')
  {
    hide Render, RenderOpen, RenderPiece, Writable, WellWritten, OpenOk;
    words', open' := words, open;
    assert Spaces(0) == "";
    if lead == 0 && |words| == 0 && open.Unclosed? {
      open' := PieceBeforeOpen(p, open);
      NothingRendered();
      assert RenderPiece(p) + command == Spaces(0) + (Render(words') + RenderOpen(open'));
    } else if lead == 0 && |words| > 0 {
      words' := PieceBeforeWords(p, words, RenderOpen(open));
      assert RenderPiece(p) + command == Spaces(0) + (Render(words') + RenderOpen(open'));
    } else {
      words' := PieceBeforeSpaces(p, lead, words, RenderOpen(open));
      assert RenderPiece(p) + command == Spaces(0) + (Render(words') + RenderOpen(open'));
    }
  }

  lemma NothingRendered()
    ensures Render([]) == ""
  {}

  /** Where a quote is closed, if it is. */
  lemma {:induction false} ClosingQuote(rest: string, quote: char) returns (text: string, later: string, closed: bool)
    ensures quote !in text && (closed ==> rest == text + [quote] + later && |later| < |rest|)
    ensures (!closed ==> rest == text)
  {
    if |rest| == 0 {
      text, later, closed := "", "", false;
    } else if rest[0] == quote {
      text, later, closed := "", rest[1..], true;
    } else {
      text, later, closed := ClosingQuote(rest[1..], quote);
      text := [rest[0]] + text;
    }
  }

  /** Every command is such a writing, so the law above says what splitting gives for each of them. */
  lemma {:induction false} EveryCommandIsWritten(command: string) returns (lead: nat, words: seq<Word>, open: Open)
    ensures IsWriting(command, lead, words, open)
    decreases |command|, 1
  {
    hide *;
    if |command| == 0 {
      lead, words, open := 0, [], Closed;
      EmptyCommand();
    } else if command[0] == ' ' {
      lead, words, open := EveryCommandIsWritten(command[1..]);
      SpaceInFront(command, lead, words, open);
      lead := lead + 1;
    } else if command[0] == '\'' || command[0] == '"' {
      lead, words, open := QuotedCommand(command);
    } else {
      lead, words, open := EveryCommandIsWritten(command[1..]);
      BareInFront(command);
      words, open := PieceInFront(Bare([command[0]]), command[1..], lead, words, open);
      lead := 0;
    }
  }

  lemma EmptyCommand()
    ensures IsWriting("", 0, [], Closed)
  {}

  lemma SpaceInFront(command: string, lead: nat, words: seq<Word>, open: Open)
    requires |command| > 0 && command[0] == ' ' && IsWriting(command[1..], lead, words, open)
    ensures IsWriting(command, lead + 1, words, open)
  {
    hide Render, RenderOpen, WellWritten, OpenOk;
    assert command == " " + command[1..];
    Associates(" ", Spaces(lead), Render(words) + RenderOpen(open));
  }

  lemma BareInFront(command: string)
    requires |command| > 0 && command[0] != ' ' && command[0] != '\'' && command[0] != '"'
    ensures Writable(Bare([command[0]])) && RenderPiece(Bare([command[0]])) + command[1..] == command
  {}

  lemma {:induction false} QuotedCommand(command: string) returns (lead: nat, words: seq<Word>, open: Open)
    requires |command| > 0 && (command[0] == '\'' || command[0] == '"')
    ensures IsWriting(command, lead, words, open)
    decreases |command|, 0
  {
    hide IsWriting;
    var quote := command[0];
    var text, later, closed := ClosingQuote(command[1..], quote);
    lead, words, open := 0, [], Unclosed([], quote, text);
    if closed {
      lead, words, open := EveryCommandIsWritten(later);
      var p := Wrapped(text, quote);
      words, open := PieceInFront(p, later, lead, words, open);
      lead := 0;
      assert RenderPiece(p) + later == command;
    } else {
      OpenCommand(quote, text);
      assert command == [quote] + text;
    }
  }

  lemma OpenCommand(quote: char, tail: string)
    requires (quote == '\'' || quote == '"') && quote !in tail
    ensures IsWriting([quote] + tail, 0, [], Unclosed([], quote, tail))
  {
    assert RenderPieces([]) + ([quote] + tail) == [quote] + tail;
  }

  // ---------- quoting a list of arguments ----------

  /** Each argument wrapped in a quote character, with the spaces that follow it. */
  function Wrap(args: seq<string>, quotes: seq<char>, gaps: seq<nat>): (words: seq<Word>)
    requires |quotes| == |gaps| == |args|
    ensures |words| == |args|
    ensures forall i :: 0 <= i < |args| ==> words[i] == Word([Wrapped(args[i], quotes[i])], gaps[i])
  {
    if |args| == 0 then [] else [Word([Wrapped(args[0], quotes[0])], gaps[0])] + Wrap(args[1..], quotes[1..], gaps[1..])
  }

  /** Any list of non-empty arguments, each wrapped in a quote it does not contain and joined by one or more spaces, is
      split into exactly that list, whatever spaces lead or trail. */
  lemma QuotedListRoundTrip(args: seq<string>, quotes: seq<char>, gaps: seq<nat>, lead: nat, command: string)
    requires |quotes| == |gaps| == |args| && command == Spaces(lead) + Render(Wrap(args, quotes, gaps))
    requires forall i :: 0 <= i < |args| ==>
               |args[i]| > 0 && (quotes[i] == '\'' || quotes[i] == '"') && quotes[i] !in args[i]
    requires forall i :: 0 <= i < |args| - 1 ==> gaps[i] >= 1
    ensures Scan(command, "", Plain) == args
  {
    var words := Wrap(args, quotes, gaps);
    forall i | 0 <= i < |words| ensures Text(words[i].pieces) == args[i] {
      OnePiece(words[i].pieces, args[i], quotes[i]);
    }
    hide Scan, Render, Text, Wrap, Spaces;
    LeadingSpaces(lead, Render(words));
    RoundTripIff(words);
    assert Texts(words) == args;
  }

  lemma OnePiece(pieces: seq<Piece>, arg: string, quote: char)
    requires pieces == [Wrapped(arg, quote)]
    ensures Text(pieces) == arg
  {
    assert pieces[1..] == [];
    assert arg + "" == arg;
  }
}
