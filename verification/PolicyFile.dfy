/** The policy file format: one entry per line, commas also split, blanks and `#` lines skipped. */
module PolicyFile {
  import opened Wrappers
  import opened Text
  import opened Sequences

  /** What one attempt to read a configured file gives: its text, or a stat, size or read error. */
  datatype FileRead = Contents(text: string) | Unreadable

  function StripCarriageReturn(line: string): string {
    if line != "" && line[|line| - 1] == '\r' then line[..|line| - 1] else line
  }

  /** Rust's `str::lines`: a line ends at `\n` or `\r\n`, and a final newline opens no empty line. */
  function Lines(s: string): seq<string>
    decreases |s|
  {
    if s == "" then [] else
      var i := IndexOf(s, '\n');
      if i == |s| then [s] else [StripCarriageReturn(s[..i])] + Lines(s[i + 1..])
  }

  function PieceEntries(pieces: seq<string>): seq<string> {
    if pieces == [] then [] else
      var entry := Trim(pieces[0]);
      (if entry == "" then [] else [entry]) + PieceEntries(pieces[1..])
  }

  function LineEntries(line: string): seq<string> {
    var line := Trim(line);
    if line == "" || line[0] == '#' then [] else PieceEntries(Split(line, ','))
  }

  function LinesEntries(lines: seq<string>): seq<string> {
    if lines == [] then [] else LineEntries(lines[0]) + LinesEntries(lines[1..])
  }

  /** The entries a policy file holds. */
  function Parse(text: string): seq<string> {
    LinesEntries(Lines(text))
  }

  lemma {:induction false} PieceEntriesSnoc(pieces: seq<string>, piece: string)
    ensures PieceEntries(pieces + [piece]) == PieceEntries(pieces) + PieceEntries([piece])
  {
    if pieces != [] {
      assert (pieces + [piece])[1..] == pieces[1..] + [piece];
      PieceEntriesSnoc(pieces[1..], piece);
    } else {
      assert pieces + [piece] == [piece];
    }
  }

  lemma {:induction false} LinesEntriesSnoc(lines: seq<string>, line: string)
    ensures LinesEntries(lines + [line]) == LinesEntries(lines) + LineEntries(line)
  {
    if lines != [] {
      assert (lines + [line])[1..] == lines[1..] + [line];
      LinesEntriesSnoc(lines[1..], line);
    } else {
      assert lines + [line] == [line];
    }
  }

  lemma PieceEntriesStep(pieces: seq<string>, j: nat)
    requires j < |pieces|
    ensures var entry := Trim(pieces[j]);
            PieceEntries(pieces[..j + 1]) == PieceEntries(pieces[..j]) + if entry == "" then [] else [entry]
  {
    assert pieces[..j + 1] == pieces[..j] + [pieces[j]];
    PieceEntriesSnoc(pieces[..j], pieces[j]);
    assert PieceEntries([pieces[j]][1..]) == [];
  }

  lemma LinesEntriesStep(lines: seq<string>, i: nat)
    requires i < |lines|
    ensures LinesEntries(lines[..i + 1]) == LinesEntries(lines[..i]) + LineEntries(lines[i])
  {
    assert lines[..i + 1] == lines[..i] + [lines[i]];
    LinesEntriesSnoc(lines[..i], lines[i]);
  }

  /** Pushes the entries of one line. */
  method PushLine(before: seq<string>, raw: string) returns (entries: seq<string>)
    ensures entries == before + LineEntries(raw)
  {
    entries := before;
    var line := Trim(raw);
    if line == "" || line[0] == '#' {
      return;
    }
    var pieces := Split(line, ',');
    for j := 0 to |pieces|
      invariant entries == before + PieceEntries(pieces[..j])
    {
      var entry := Trim(pieces[j]);
      PieceEntriesStep(pieces, j);
      if entry != "" {
        entries := entries + [entry];
      }
    }
    assert pieces[..|pieces|] == pieces;
  }

  /** Reads a policy file, pushing the entries one by one. */
  method ReadPolicyFile(file: FileRead) returns (r: Result<seq<string>, ()>)
    ensures r.Err? <==> file.Unreadable?
    ensures r.Ok? ==> r.value == Parse(file.text)
  {
    if file.Unreadable? {
      return Err(());
    }
    var entries := [];
    var lines := Lines(file.text);
    for i := 0 to |lines|
      invariant entries == LinesEntries(lines[..i])
    {
      LinesEntriesStep(lines, i);
      entries := PushLine(entries, lines[i]);
    }
    assert lines[..|lines|] == lines;
    r := Ok(entries);
  }

  // ---- What a file means ----

  /** The entry a piece between commas stands for, if any. */
  function EntryOf(piece: string): seq<string> {
    var entry := Trim(piece);
    if entry == "" then [] else [entry]
  }

  /** A piece is an entry with whitespace around it, or whitespace only and then nothing. */
  lemma EntryOfExactly(piece: string, entry: string)
    ensures EntryOf(piece) == [entry] <==> entry != "" && TrimsTo(piece, entry)
    ensures EntryOf(piece) == [] <==> AllWhitespace(piece)
  {
    TrimExactly(piece, entry);
    TrimToNothing(piece);
  }

  /** The first visible character is `#`. */
  predicate IsComment(line: string) {
    line != "" && if IsWhitespace(line[0]) then IsComment(line[1..]) else line[0] == '#'
  }

  lemma HashOrBlank(line: string, a: string, b: string)
    requires AllWhitespace(a) && line == a + "#" + b
    ensures line != "" && (line[0] == '#' || IsWhitespace(line[0]))
  {
  }

  lemma {:induction false} IsCommentExactly(line: string)
    ensures IsComment(line) <==> exists a: string, b: string :: AllWhitespace(a) && line == a + "#" + b
  {
    if line != "" {
      if IsWhitespace(line[0]) {
        IsCommentExactly(line[1..]);
        if IsComment(line) {
          var a: string, b: string :| AllWhitespace(a) && line[1..] == a + "#" + b;
          assert line == [line[0]] + a + "#" + b;
          assert AllWhitespace([line[0]] + a);
        }
        if a: string, b: string :| AllWhitespace(a) && line == a + "#" + b {
          assert a != "" && line[1..] == a[1..] + "#" + b;
          assert AllWhitespace(a[1..]);
        }
      } else {
        if a: string, b: string :| AllWhitespace(a) && line == a + "#" + b {
          HashOrBlank(line, a, b);
        }
        if line[0] == '#' {
          assert AllWhitespace("") && line == "" + "#" + line[1..];
        }
      }
    }
  }

  /** The pieces of a line that count. */
  function PiecesOf(line: string): seq<string> {
    if IsComment(line) then [] else Split(line, ',')
  }

  lemma {:induction false} PieceEntriesIsFlat(pieces: seq<string>)
    ensures PieceEntries(pieces) == FlatMap(EntryOf, pieces)
  {
    if pieces != [] {
      PieceEntriesIsFlat(pieces[1..]);
    }
  }

  lemma EntryIgnoresBlanks(c: char, piece: string)
    requires IsWhitespace(c)
    ensures EntryOf([c] + piece) == EntryOf(piece) == EntryOf(piece + [c])
  {
    assert ([c] + piece)[1..] == piece;
    TrimIgnoresTrailing(piece, c);
  }

  /** Whitespace in front of a line is whitespace in front of its first piece. */
  lemma {:induction false} SplitAfterBlank(c: char, s: string)
    requires c != ','
    ensures Split([c] + s, ',') == [[c] + Split(s, ',')[0]] + Split(s, ',')[1..]
  {
    assert ([c] + s)[1..] == s;
    var i := IndexOf(s, ',');
    assert IndexOf([c] + s, ',') == i + 1;
    if i < |s| {
      assert ([c] + s)[..i + 1] == [c] + s[..i] && ([c] + s)[i + 2..] == s[i + 1..];
    }
  }

  lemma FrontBlank(c: char, s: string)
    requires IsWhitespace(c)
    ensures FlatMap(EntryOf, Split([c] + s, ',')) == FlatMap(EntryOf, Split(s, ','))
  {
    var pieces := Split(s, ',');
    SplitAfterBlank(c, s);
    EntryIgnoresBlanks(c, pieces[0]);
    assert ([[c] + pieces[0]] + pieces[1..])[1..] == pieces[1..];
  }

  /** Whitespace behind a line is whitespace behind its last piece. */
  lemma {:induction false} BackBlank(s: string, c: char)
    requires IsWhitespace(c)
    ensures FlatMap(EntryOf, Split(s + [c], ',')) == FlatMap(EntryOf, Split(s, ','))
    decreases |s|
  {
    var i := IndexOf(s, ',');
    if i == |s| {
      SplitWhole(s, ',');
      SplitWhole(s + [c], ',');
      FlatMapOne(EntryOf, s);
      FlatMapOne(EntryOf, s + [c]);
      EntryIgnoresBlanks(c, s);
    } else {
      var front, rest := s[..i], s[i + 1..];
      assert s == front + [','] + rest && s + [c] == front + [','] + (rest + [c]);
      SplitAppend(front, ',', rest);
      SplitAppend(front, ',', rest + [c]);
      BackBlank(rest, c);
      assert ([front] + Split(rest, ','))[1..] == Split(rest, ',');
      assert ([front] + Split(rest + [c], ','))[1..] == Split(rest + [c], ',');
    }
  }

  lemma {:induction false} FrontTrimmed(s: string)
    ensures FlatMap(EntryOf, Split(TrimStart(s), ',')) == FlatMap(EntryOf, Split(s, ','))
  {
    if s != "" && IsWhitespace(s[0]) {
      FrontTrimmed(s[1..]);
      FrontBlank(s[0], s[1..]);
      assert s == [s[0]] + s[1..];
    }
  }

  lemma {:induction false} BackTrimmed(s: string)
    ensures FlatMap(EntryOf, Split(TrimEnd(s), ',')) == FlatMap(EntryOf, Split(s, ','))
  {
    var n := |s| - 1;
    if s != "" && IsWhitespace(s[n]) {
      BackTrimmed(s[..n]);
      BackBlank(s[..n], s[n]);
      assert s == s[..n] + [s[n]];
    }
  }

  lemma {:induction false} CommentByTrim(line: string)
    ensures IsComment(line) <==> Trim(line) != "" && Trim(line)[0] == '#'
  {
    TrimStartLaws(line);
    TrimEndLaws(TrimStart(line));
    CommentByTrimStart(line);
    if TrimStart(line) != "" {
      TrimEndKeepsFirst(TrimStart(line));
    }
  }

  lemma {:induction false} TrimEndKeepsFirst(s: string)
    requires s != "" && !IsWhitespace(s[0])
    ensures TrimEnd(s) != "" && TrimEnd(s)[0] == s[0]
  {
    var n := |s| - 1;
    if IsWhitespace(s[n]) {
      TrimEndKeepsFirst(s[..n]);
    }
  }

  lemma {:induction false} CommentByTrimStart(line: string)
    ensures IsComment(line) <==> TrimStart(line) != "" && TrimStart(line)[0] == '#'
  {
    if line != "" && IsWhitespace(line[0]) {
      CommentByTrimStart(line[1..]);
    }
  }

  /** A line counts piece by piece, unless it is a comment. */
  lemma LineMeaning(line: string)
    ensures LineEntries(line) == FlatMap(EntryOf, PiecesOf(line))
  {
    CommentByTrim(line);
    FrontTrimmed(line);
    BackTrimmed(TrimStart(line));
    PieceEntriesIsFlat(Split(Trim(line), ','));
    if Trim(line) == "" {
      SplitWhole("", ',');
      FlatMapOne(EntryOf, "");
    }
  }

  /** The file, line by line, whatever ends its last line and whether or not its lines end in a carriage return. */
  lemma {:induction false} FileMeaning(text: string)
    ensures Parse(text) == FlatMap(LineEntries, Split(text, '\n'))
    decreases |text|
  {
    var i := IndexOf(text, '\n');
    if i == |text| {
      assert text[..i] == text;
      SplitWhole(text, '\n');
      FlatMapOne(LineEntries, text);
      ParseOneLine(text);
    } else {
      var line, rest := text[..i], text[i + 1..];
      assert text == line + ['\n'] + rest && text == line + "\n" + rest;
      SplitAppend(line, '\n', rest);
      ParseFirstLine(line, rest);
      FileMeaning(rest);
      assert ([line] + Split(rest, '\n'))[1..] == Split(rest, '\n');
    }
  }

  /** The pieces of a file that count, in order. */
  function PiecesOfFile(text: string): seq<string> {
    FlatMap(PiecesOf, Split(text, '\n'))
  }

  /**
   What a policy file holds, in order and with repetitions: cut at newlines, the lines whose first visible character is
   not `#`, cut at commas, each piece standing for what is left when whitespace is taken from its ends, if anything.
   */
  lemma ParseMeaning(text: string)
    ensures Parse(text) == FlatMap(EntryOf, PiecesOfFile(text))
  {
    FileMeaning(text);
    forall line
      ensures LineEntries(line) == FlatMap(EntryOf, PiecesOf(line))
    {
      LineMeaning(line);
    }
    FlatMapCompose(EntryOf, PiecesOf, LineEntries, Split(text, '\n'));
  }

  /** A line whose first visible character is `#` adds nothing, however far it is indented. */
  lemma CommentAddsNothing(a: string, b: string)
    requires AllWhitespace(a) && Free('\n', a) && Free('\n', b)
    ensures Parse(a + "#" + b) == []
  {
    var line := a + "#" + b;
    IsCommentExactly(line);
    ParseOneLine(line);
    LineMeaning(line);
  }

  /** Where an entry comes from. */
  ghost predicate ComesFrom(text: string, entry: string, i: nat, j: nat) {
    var lines := Split(text, '\n');
    && i < |lines| && !IsComment(lines[i])
    && j < |Split(lines[i], ',')| && entry != "" && TrimsTo(Split(lines[i], ',')[j], entry)
  }

  lemma {:induction false} FlatMapMember<A, B>(f: A -> seq<B>, xs: seq<A>, y: B)
    ensures y in FlatMap(f, xs) <==> exists i :: 0 <= i < |xs| && y in f(xs[i])
  {
    if xs != [] {
      FlatMapMember(f, xs[1..], y);
      assert forall i :: 1 <= i < |xs| ==> xs[i] == xs[1..][i - 1];
      if i :| 0 <= i < |xs[1..]| && y in f(xs[1..][i]) {
        assert y in f(xs[i + 1]);
      }
    }
  }

  /** An entry is in the file exactly when some piece of some line that is no comment is that entry, whitespace aside. */
  lemma EntryExactly(text: string, entry: string)
    ensures entry in Parse(text) <==> exists i: nat, j: nat :: ComesFrom(text, entry, i, j)
  {
    var lines := Split(text, '\n');
    FileMeaning(text);
    FlatMapMember(LineEntries, lines, entry);
    forall i | 0 <= i < |lines|
      ensures entry in LineEntries(lines[i]) <==> exists j: nat :: ComesFrom(text, entry, i, j)
    {
      LineMember(text, entry, i);
    }
    if entry in Parse(text) {
      var i: nat :| i < |lines| && entry in LineEntries(lines[i]);
      var j: nat :| ComesFrom(text, entry, i, j);
    }
    if i: nat, j: nat :| ComesFrom(text, entry, i, j) {
      assert entry in LineEntries(lines[i]);
    }
  }

  lemma LineMember(text: string, entry: string, i: nat)
    requires i < |Split(text, '\n')|
    ensures entry in LineEntries(Split(text, '\n')[i]) <==> exists j: nat :: ComesFrom(text, entry, i, j)
  {
    var line := Split(text, '\n')[i];
    LineMeaning(line);
    FlatMapMember(EntryOf, PiecesOf(line), entry);
    forall j | 0 <= j < |Split(line, ',')|
      ensures entry in EntryOf(Split(line, ',')[j]) <==> entry != "" && TrimsTo(Split(line, ',')[j], entry)
    {
      EntryOfExactly(Split(line, ',')[j], entry);
    }
    if entry in LineEntries(line) {
      var j: nat :| j < |PiecesOf(line)| && entry in EntryOf(PiecesOf(line)[j]);
      assert ComesFrom(text, entry, i, j);
    }
    if j: nat :| ComesFrom(text, entry, i, j) {
      assert entry in EntryOf(PiecesOf(line)[j]);
    }
  }

  /** What every entry that leaves the parser looks like. */
  predicate CleanEntry(e: string) {
    e != "" && Trimmed(e) && Free(',', e) && Free('\n', e)
  }

  predicate AllClean(es: seq<string>) {
    forall i :: 0 <= i < |es| ==> CleanEntry(es[i])
  }

  /** The entries that would not be taken for a comment when they open a line. */
  function NotComments(es: seq<string>): seq<string> {
    if es == [] then [] else (if es[0] != "" && es[0][0] == '#' then [] else [es[0]]) + NotComments(es[1..])
  }

  /** A file is the sequence of its lines: cutting it at any newline cuts its entries. */
  lemma {:induction false} ParseConcatenates(a: string, b: string)
    ensures Parse(a + "\n" + b) == Parse(a) + Parse(b)
    decreases |a|
  {
    var i := IndexOf(a, '\n');
    if i == |a| {
      assert a[..i] == a;
      ParseFirstLine(a, b);
      ParseOneLine(a);
    } else {
      assert a == a[..i] + "\n" + a[i + 1..];
      ParseConcatenates(a[i + 1..], b);
      ParseMore(a[..i], a[i + 1..], b);
    }
  }

  lemma SameText(line: string, rest: string, b: string)
    ensures line + "\n" + rest + "\n" + b == line + "\n" + (rest + "\n" + b)
  {
  }

  /** One more line in front of a text that is cut where it should be. */
  lemma {:induction false} ParseMore(line: string, rest: string, b: string)
    requires Free('\n', line) && Parse(rest + "\n" + b) == Parse(rest) + Parse(b)
    ensures Parse(line + "\n" + rest + "\n" + b) == Parse(line + "\n" + rest) + Parse(b)
  {
    ParseFirstLine(line, rest + "\n" + b);
    ParseFirstLine(line, rest);
    SameText(line, rest, b);
    Associative(LineEntries(line), Parse(rest), Parse(b));
  }

  lemma ParseFirstLine(line: string, rest: string)
    requires Free('\n', line)
    ensures Parse(line + "\n" + rest) == LineEntries(line) + Parse(rest)
  {
    var s := line + "\n" + rest;
    assert s == line + ['\n'] + rest;
    IndexOfAppend(line, '\n', rest);
    assert s[..|line|] == line && s[|line| + 1..] == rest;
    CarriageReturnIsBlank(line);
  }

  lemma ParseOneLine(line: string)
    requires Free('\n', line)
    ensures Parse(line) == LineEntries(line)
  {
    if line != "" {
      assert Lines(line) == [line];
      assert LinesEntries([line]) == LineEntries(line) + LinesEntries([]);
    }
  }

  lemma CarriageReturnIsBlank(line: string)
    ensures LineEntries(StripCarriageReturn(line)) == LineEntries(line)
  {
    if StripCarriageReturn(line) != line {
      TrimIgnoresTrailing(line[..|line| - 1], '\r');
      assert line == line[..|line| - 1] + ['\r'];
    }
  }

  /** Every parsed entry is non-empty, trimmed, and free of commas and newlines. */
  lemma {:induction false} ParseIsClean(text: string)
    ensures AllClean(Parse(text))
    decreases |text|
  {
    var i := IndexOf(text, '\n');
    if i == |text| {
      assert text[..i] == text;
      ParseOneLine(text);
      LineIsClean(text);
    } else {
      assert text == text[..i] + "\n" + text[i + 1..];
      ParseFirstLine(text[..i], text[i + 1..]);
      LineIsClean(text[..i]);
      ParseIsClean(text[i + 1..]);
    }
  }

  lemma LineIsClean(line: string)
    requires Free('\n', line)
    ensures AllClean(LineEntries(line))
  {
    var l := Trim(line);
    TrimLaws(line);
    JoinOfSplit(l, ',');
    PiecesAreClean(Split(l, ','));
  }

  lemma PiecesAreClean(pieces: seq<string>)
    requires forall i :: 0 <= i < |pieces| ==> Free(',', pieces[i]) && Free('\n', pieces[i])
    ensures AllClean(PieceEntries(pieces))
  {
    if pieces != [] {
      TrimLaws(pieces[0]);
      PiecesAreClean(pieces[1..]);
    }
  }

  lemma {:induction false} PiecesOfClean(es: seq<string>)
    requires AllClean(es)
    ensures PieceEntries(es) == es
  {
    if es != [] {
      TrimLaws(es[0]);
      PiecesOfClean(es[1..]);
    }
  }

  /** Joining clean entries gives a trimmed, newline-free text. */
  lemma JoinedIsTrimmed(es: seq<string>)
    requires AllClean(es)
    ensures var s := Join(es, ','); Trimmed(s) && Free('\n', s) && (es != [] ==> s != "" && s[0] == es[0][0])
  {
    if |es| > 1 {
      JoinedIsTrimmed(es[1..]);
    }
  }

  /** The entry `#b` can come out of a file, and a file that holds it alone reads as empty. */
  lemma HashEntryIsLost()
    ensures Parse(",#b") == ["#b"] && Parse("#b") == []
  {
    assert AllClean(["#b"]);
    CommaLineKeeps(["#b"]);
    CommaJoinSurvives(["#b"]);
    assert Join(["#b"], ',') == "#b";
    assert "," + "#b" == ",#b";
    NewlineJoinKeeps(["#b"]);
  }

  /** Comma-joined on one line, clean entries survive exactly when the first does not open a comment. */
  lemma CommaJoinSurvives(es: seq<string>)
    requires AllClean(es)
    ensures Parse(Join(es, ',')) == es <==> es == [] || es[0][0] != '#'
  {
    var s := Join(es, ',');
    JoinedIsTrimmed(es);
    TrimLaws(s);
    ParseOneLine(s);
    if es != [] {
      SplitOfJoin(es, ',');
      PiecesOfClean(es);
    }
  }

  /** One per line, the clean entries that do not open a comment survive, in order. */
  lemma {:induction false} NewlineJoinKeeps(es: seq<string>)
    requires AllClean(es)
    ensures Parse(Join(es, '\n')) == NotComments(es)
  {
    if es == [] {
    } else {
      var e := es[0];
      CommaJoinSurvives([e]);
      JoinedIsTrimmed([e]);
      TrimLaws(e);
      ParseOneLine(e);
      assert Parse(e) == NotComments([e]);
      if |es| == 1 {
        assert es == [e];
      } else {
        assert Join(es, '\n') == e + "\n" + Join(es[1..], '\n');
        ParseConcatenates(e, Join(es[1..], '\n'));
        NewlineJoinKeeps(es[1..]);
        assert NotComments(es) == NotComments([e]) + NotComments(es[1..]);
      }
    }
  }

  /** Written one per line, a list of clean entries reads back unchanged exactly when none opens a comment. */
  lemma NewlineJoinSurvives(es: seq<string>)
    requires AllClean(es)
    ensures Parse(Join(es, '\n')) == es <==> (forall i :: 0 <= i < |es| ==> es[i][0] != '#')
  {
    NewlineJoinKeeps(es);
    NotCommentsIsWhole(es);
  }

  lemma NotCommentsIsWhole(es: seq<string>)
    requires AllClean(es)
    ensures |NotComments(es)| <= |es|
    ensures NotComments(es) == es <==> (forall i :: 0 <= i < |es| ==> es[i][0] != '#')
  {
    if es != [] {
      NotCommentsIsWhole(es[1..]);
      if es[0][0] == '#' {
      } else {
        assert NotComments(es)[1..] == NotComments(es[1..]);
        assert forall i :: 1 <= i < |es| ==> es[i] == es[1..][i - 1];
      }
    }
  }

  /** Every file has a one-line equivalent; the leading comma keeps a `#` entry from opening a comment. */
  lemma OneLineForm(text: string)
    ensures Parse("," + Join(Parse(text), ',')) == Parse(text)
  {
    ParseIsClean(text);
    CommaLineKeeps(Parse(text));
  }

  lemma EmptyPieceAddsNothing(pieces: seq<string>)
    ensures PieceEntries([""] + pieces) == PieceEntries(pieces)
  {
    assert ([""] + pieces)[1..] == pieces;
  }

  /** What a line that opens with a comma holds. */
  lemma CommaLine(rest: string)
    requires Free('\n', rest)
    ensures Parse("," + rest) == PieceEntries(Split(rest, ','))
  {
    var line := "," + rest;
    ParseOneLine(line);
    LineMeaning(line);
    SplitAppend("", ',', rest);
    assert line == "" + [','] + rest;
    EmptyPieceAddsNothing(Split(rest, ','));
    PieceEntriesIsFlat([""] + Split(rest, ','));
  }

  lemma CommaLineKeeps(es: seq<string>)
    requires AllClean(es)
    ensures Parse("," + Join(es, ',')) == es
  {
    JoinedIsTrimmed(es);
    CommaLine(Join(es, ','));
    if es == [] {
      SplitWhole("", ',');
      EmptyPieceAddsNothing([]);
      assert [""] + [] == [""];
    } else {
      SplitOfJoin(es, ',');
      PiecesOfClean(es);
    }
  }
}
