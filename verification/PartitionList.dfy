/** The partition list as the CLI prints it into the values text and seen it back line by line. */
module PartitionList {
  import opened Text
  import Naming

  /** A character that ends a line for str.splitlines(). */
  predicate IsBreak(c: char) {
    var n := c as int;
    10 <= n <= 13 || 28 <= n <= 30 || n == 0x85 || n == 0x2028 || n == 0x2029
  }

  predicate OneLine(s: string) {
    forall i :: 0 <= i < |s| ==> !IsBreak(s[i])
  }

  /** The length of the first line. */
  function LineLength(s: string): (n: nat)
    ensures n <= |s| && OneLine(s[..n]) && (n < |s| ==> IsBreak(s[n]))
  {
    if s == "" || IsBreak(s[0]) then 0
    else
      var n := 1 + LineLength(s[1..]);
      assert forall i :: 0 < i < n ==> s[..n][i] == s[1..][..n - 1][i - 1];
      n
  }

  function SplitLines(s: string): seq<string>
    decreases |s|
  {
    if s == "" then []
    else
      var n := LineLength(s);
      if n == |s| then [s]
      else if s[n] == '\r' && n + 1 < |s| && s[n + 1] == '\n' then [s[..n]] + SplitLines(s[n + 2..])
      else [s[..n]] + SplitLines(s[n + 1..])
  }

  const KEY: string := "partitions:"

  function Dashes(partitions: seq<string>): seq<string> {
    if partitions == [] then [] else ["- " + partitions[0]] + Dashes(partitions[1..])
  }

  function Body(partitions: seq<string>): seq<string> {
    if partitions == [] then [""] else Dashes(partitions)
  }

  /** `ids` is the printed list of creator ids. An empty partition list leaves an empty line. */
  function ValuesLines(partitions: seq<string>, ids: string): seq<string> {
    [KEY] + Body(partitions) + [IdsLine(ids)]
  }

  function IdsLine(ids: string): string {
    "creatorUserIds: " + ids
  }

  function Joined(lines: seq<string>): string {
    if lines == [] then "" else lines[0] + "\n" + Joined(lines[1..])
  }

  function ValuesText(partitions: seq<string>, ids: string): string {
    Joined(ValuesLines(partitions, ids))
  }

  // ---- reading ----

  /** What one line is to the reader, by its text without surrounding white space. */
  datatype Line = Opens | Item(name: string) | Sibling | Skipped

  function Read(line: string): (r: Line)
    ensures r.Item? ==> r.name != "" && Trimmed(r.name)
  {
    var stripped := Strip(line);
    if stripped == KEY then Opens
    else if "- " <= stripped then
      RestIsName(stripped);
      Item(Strip(stripped[2..]))
    else if stripped != "" && !("-" <= stripped) then Sibling
    else Skipped
  }

  function ReadAll(lines: seq<string>): (r: seq<Line>)
    ensures |r| == |lines|
  {
    if lines == [] then [] else ReadAll(lines[..|lines| - 1]) + [Read(lines[|lines| - 1])]
  }

  /** The names the lines from the n-th on still give, inside the list or before it. */
  function Collected(lines: seq<Line>, n: nat, inside: bool): seq<string>
    requires n <= |lines|
    decreases |lines| - n
  {
    if n == |lines| then []
    else
      var rest := Collected(lines, n + 1, inside || lines[n].Opens?);
      if inside && lines[n].Sibling? then []
      else if inside && lines[n].Item? then [lines[n].name] + rest
      else rest
  }

  function Parsed(text: string): seq<string> {
    Collected(ReadAll(SplitLines(text)), 0, false)
  }

  method ParsePartitions(text: string) returns (out: seq<string>)
    ensures out == Parsed(text)
  {
    var lines := ReadAll(SplitLines(text));
    out := Collect(lines);
  }

  method Collect(lines: seq<Line>) returns (out: seq<string>)
    ensures out == Collected(lines, 0, false)
  {
    var inside := false;
    out := [];
    var n := 0;
    while n < |lines|
      invariant n <= |lines|
      invariant out + Collected(lines, n, inside) == Collected(lines, 0, false)
    {
      match lines[n] {
        case Opens => inside := true;
        case Item(name) => if inside { out := out + [name]; }
        case Sibling => if inside { return; }
        case Skipped =>
      }
      n := n + 1;
    }
  }

  // ---- the round trip ----

  predicate Acceptable(names: seq<string>) {
    forall i :: 0 <= i < |names| ==> names[i] != "" && Trimmed(names[i])
  }

  lemma FirstLine(line: string, rest: string)
    requires OneLine(line)
    ensures LineLength(line + "\n" + rest) == |line|
  {
    LineLengthIs(line + "\n" + rest, |line|);
  }

  lemma LineLengthIs(s: string, n: nat)
    requires n < |s| && OneLine(s[..n]) && IsBreak(s[n])
    ensures LineLength(s) == n
  {
    assert forall i :: 0 <= i < n ==> s[..n][i] == s[i];
    var m := LineLength(s);
    assert forall i :: 0 <= i < m ==> s[..m][i] == s[i];
  }

  lemma SplitFirst(line: string, rest: string)
    requires OneLine(line)
    ensures SplitLines(line + "\n" + rest) == [line] + SplitLines(rest)
  {
    FirstLine(line, rest);
    var s := line + "\n" + rest;
    assert s[|line|] == '\n' && s[..|line|] == line && s[|line| + 1..] == rest;
  }

  /** Any other line break ends a line too, and a carriage return takes a line feed after it along. */
  lemma SplitAtBreak(line: string, end: string, rest: string)
    requires OneLine(line)
    requires end == "\r\n" || (|end| == 1 && IsBreak(end[0]) && (end == "\r" ==> rest == "" || rest[0] != '\n'))
    ensures SplitLines(line + end + rest) == [line] + SplitLines(rest)
  {
    var s := line + end + rest;
    assert s[..|line|] == line && s[|line|] == end[0] && s[|line| + |end|..] == rest;
    LineLengthIs(s, |line|);
    if end == "\r\n" {
      assert s[|line| + 1] == '\n';
    } else if rest != "" {
      assert s[|line| + 1] == rest[0];
    }
  }

  lemma {:induction false} JoinedSplits(lines: seq<string>)
    requires forall i :: 0 <= i < |lines| ==> OneLine(lines[i])
    ensures SplitLines(Joined(lines)) == lines
  {
    if lines != [] {
      SplitFirst(lines[0], Joined(lines[1..]));
      JoinedSplits(lines[1..]);
    }
  }

  lemma RestIsName(stripped: string)
    requires Trimmed(stripped) && "- " <= stripped
    ensures Strip(stripped[2..]) != ""
  {
    var rest := stripped[2..];
    assert stripped[1] == ' ';
    assert rest[|rest| - 1] == stripped[|stripped| - 1];
    StripKeepsEnd(rest);
  }

  lemma CreatorLineIsSibling(ids: string)
    ensures Read(IdsLine(ids)) == Sibling
  {
    var line := IdsLine(ids);
    assert line[0] == 'c';
    StripKeepsStart(line);
    var stripped := Strip(line);
    assert stripped[0] == 'c';
    assert KEY[0] == 'p' && "-"[0] == '-' && "- "[0] == '-';
  }

  lemma DashIsItem(p: string)
    requires p != "" && Trimmed(p)
    ensures Read("- " + p) == Item(p)
  {
    var line := "- " + p;
    assert line[0] == '-' && KEY[0] == 'p';
    assert line[|line| - 1] == p[|p| - 1];
    assert Trimmed(line);
    assert line[2..] == p;
  }

  lemma KeyOpens()
    ensures Read(KEY) == Opens
  {
    assert KEY[0] == 'p' && KEY[10] == ':';
    assert Trimmed(KEY);
  }

  lemma {:induction false} DashAt(partitions: seq<string>, i: nat)
    requires i < |partitions|
    ensures |Dashes(partitions)| == |partitions| && Dashes(partitions)[i] == "- " + partitions[i]
  {
    DashesLength(partitions);
    if i > 0 {
      DashAt(partitions[1..], i - 1);
    }
  }

  lemma {:induction false} DashesLength(partitions: seq<string>)
    ensures |Dashes(partitions)| == |partitions|
  {
    if partitions != [] {
      DashesLength(partitions[1..]);
    }
  }

  lemma {:induction false} ReadAt(lines: seq<string>, i: nat)
    requires i < |lines|
    ensures ReadAll(lines)[i] == Read(lines[i])
  {
    if i < |lines| - 1 {
      ReadAt(lines[..|lines| - 1], i);
    }
  }

  lemma {:induction false} ItemsAreCollected(lines: seq<Line>, names: seq<string>, k: nat)
    requires |lines| == |names| + 2 && k <= |names|
    requires forall i :: k <= i < |names| ==> lines[i + 1] == Item(names[i])
    requires lines[|names| + 1] == Sibling
    ensures Collected(lines, k + 1, true) == names[k..]
    decreases |names| - k
  {
    if k < |names| {
      ItemsAreCollected(lines, names, k + 1);
      assert names[k..] == [names[k]] + names[k + 1..];
    }
  }

  lemma EmptyListIsCollected(lines: seq<Line>)
    requires lines == [Opens, Skipped, Sibling]
    ensures Collected(lines, 0, false) == []
  {
    assert Collected(lines, 2, true) == [];
    assert Collected(lines, 1, true) == [];
  }

  lemma BlankIsSkipped()
    ensures Read("") == Skipped
  {
    assert Trimmed("");
  }

  lemma NamesAreRead(partitions: seq<string>, ids: string, i: nat)
    requires i < |partitions| && Acceptable(partitions)
    ensures |ValuesLines(partitions, ids)| == |partitions| + 2
    ensures ReadAll(ValuesLines(partitions, ids))[i + 1] == Item(partitions[i])
  {
    DashAt(partitions, i);
    DashIsItem(partitions[i]);
    ReadAt(ValuesLines(partitions, ids), i + 1);
  }

  lemma FrameIsRead(partitions: seq<string>, ids: string)
    ensures var n := |ValuesLines(partitions, ids)| - 1;
      && n == (if partitions == [] then 2 else |partitions| + 1)
      && ReadAll(ValuesLines(partitions, ids))[0] == Opens
      && ReadAll(ValuesLines(partitions, ids))[n] == Sibling
      && (partitions == [] ==> ReadAll(ValuesLines(partitions, ids))[1] == Skipped)
  {
    var lines := ValuesLines(partitions, ids);
    DashesLength(partitions);
    ReadAt(lines, 0);
    KeyOpens();
    ReadAt(lines, |lines| - 1);
    CreatorLineIsSibling(ids);
    ReadAt(lines, 1);
    BlankIsSkipped();
  }

  lemma PrintedIsRead(partitions: seq<string>, ids: string)
    requires Acceptable(partitions)
    ensures Collected(ReadAll(ValuesLines(partitions, ids)), 0, false) == partitions
  {
    var lines := ReadAll(ValuesLines(partitions, ids));
    FrameIsRead(partitions, ids);
    if partitions == [] {
      EmptyListIsCollected(lines);
    } else {
      forall i | 0 <= i < |partitions| ensures lines[i + 1] == Item(partitions[i]) {
        NamesAreRead(partitions, ids, i);
      }
      ItemsAreCollected(lines, partitions, 0);
    }
  }

  lemma {:induction false} DashesAreSingle(partitions: seq<string>)
    requires forall i :: 0 <= i < |partitions| ==> OneLine(partitions[i])
    ensures forall i :: 0 <= i < |Dashes(partitions)| ==> OneLine(Dashes(partitions)[i])
  {
    if partitions != [] {
      assert OneLine("- ");
      OneLineConcat("- ", partitions[0]);
      DashesAreSingle(partitions[1..]);
    }
  }

  lemma LinesAreSingle(partitions: seq<string>, ids: string)
    requires OneLine(ids) && forall i :: 0 <= i < |partitions| ==> OneLine(partitions[i])
    ensures forall i :: 0 <= i < |ValuesLines(partitions, ids)| ==> OneLine(ValuesLines(partitions, ids)[i])
  {
    assert OneLine(KEY) && OneLine("creatorUserIds: ");
    OneLineConcat("creatorUserIds: ", ids);
    DashesAreSingle(partitions);
  }

  lemma OneLineConcat(a: string, b: string)
    requires OneLine(a) && OneLine(b)
    ensures OneLine(a + b)
  {}

  /** For single-line names: the list read back is the list printed exactly when every name is non-empty and trimmed. */
  lemma RoundTripExactly(partitions: seq<string>, ids: string)
    requires OneLine(ids) && forall i :: 0 <= i < |partitions| ==> OneLine(partitions[i])
    ensures Parsed(ValuesText(partitions, ids)) == partitions
       <==> Acceptable(partitions)
  {
    var lines := ValuesLines(partitions, ids);
    LinesAreSingle(partitions, ids);
    JoinedSplits(lines);
    if Acceptable(partitions) {
      PrintedIsRead(partitions, ids);
    } else {
      CollectedAreNames(lines);
    }
  }

  lemma {:induction false} CollectedAreItems(lines: seq<Line>, n: nat, inside: bool, i: nat)
    requires n <= |lines| && i < |Collected(lines, n, inside)|
    ensures Item(Collected(lines, n, inside)[i]) in lines
    decreases |lines| - n
  {
    var after := inside || lines[n].Opens?;
    if !(inside && lines[n].Item?) {
      CollectedAreItems(lines, n + 1, after, i);
    } else if i > 0 {
      CollectedAreItems(lines, n + 1, after, i - 1);
    }
  }

  lemma CollectedAreNames(lines: seq<string>)
    ensures Acceptable(Collected(ReadAll(lines), 0, false))
  {
    var names := Collected(ReadAll(lines), 0, false);
    forall i | 0 <= i < |names| ensures names[i] != "" && Trimmed(names[i]) {
      CollectedAreItems(ReadAll(lines), 0, false, i);
      var k :| 0 <= k < |lines| && ReadAll(lines)[k] == Item(names[i]);
      ReadAt(lines, k);
    }
  }

  /** Every validated partition list is read back in order, whatever the creator ids are. */
  lemma ValidatedRoundTrip(env: string, partitions: seq<string>, ids: string)
    requires Naming.Validate(env, partitions).None? && OneLine(ids)
    ensures Parsed(ValuesText(partitions, ids)) == partitions
  {
    forall i | 0 <= i < |partitions|
      ensures OneLine(partitions[i]) && partitions[i] != "" && Trimmed(partitions[i])
    {
      assert partitions[i] in partitions && Naming.Alphanumeric(partitions[i]);
    }
    RoundTripExactly(partitions, ids);
  }

  // ---- lines around the list ----

  lemma ReadConcat(a: seq<string>, b: seq<string>)
    ensures ReadAll(a + b) == ReadAll(a) + ReadAll(b)
  {
    forall i | 0 <= i < |a + b| ensures ReadAll(a + b)[i] == (ReadAll(a) + ReadAll(b))[i] {
      ReadAt(a + b, i);
      if i < |a| {
        ReadAt(a, i);
      } else {
        ReadAt(b, i - |a|);
      }
    }
  }

  /** Once the list has ended at a sibling key, at position `k`, later lines do not matter. */
  lemma {:induction false} NothingAfterSibling(lines: seq<Line>, more: seq<Line>, n: nat, inside: bool,
                                               opens: nat, k: nat)
    requires n <= k < |lines| && lines[k] == Sibling
    requires inside || (n <= opens < k && lines[opens] == Opens)
    ensures Collected(lines + more, n, inside) == Collected(lines, n, inside)
    decreases |lines| - n
  {
    assert (lines + more)[n] == lines[n];
    if !(inside && lines[n] == Sibling) {
      NothingAfterSibling(lines, more, n + 1, inside || lines[n].Opens?, opens, k);
    }
  }

  lemma {:induction false} Shifted(before: seq<Line>, lines: seq<Line>, n: nat, inside: bool)
    requires n <= |lines|
    ensures Collected(before + lines, |before| + n, inside) == Collected(lines, n, inside)
    decreases |lines| - n
  {
    if n < |lines| {
      assert (before + lines)[|before| + n] == lines[n];
      Shifted(before, lines, n + 1, inside || lines[n].Opens?);
    }
  }

  /** Before the key nothing is collected, dashes or not. */
  lemma {:induction false} NothingBeforeKey(before: seq<Line>, lines: seq<Line>, n: nat)
    requires n <= |before| && forall i :: 0 <= i < |before| ==> !before[i].Opens?
    ensures Collected(before + lines, n, false) == Collected(lines, 0, false)
    decreases |before| - n
  {
    if n == |before| {
      Shifted(before, lines, 0, false);
    } else {
      assert (before + lines)[n] == before[n];
      NothingBeforeKey(before, lines, n + 1);
    }
  }

  /** The list is read the same whatever single lines follow it, and precede it without naming its key. */
  lemma ListIsFramed(before: seq<string>, partitions: seq<string>, ids: string, after: seq<string>)
    requires Acceptable(partitions)
    requires forall i :: 0 <= i < |before| ==> Strip(before[i]) != "partitions:"
    ensures Collected(ReadAll(before + ValuesLines(partitions, ids) + after), 0, false) == partitions
  {
    var middle := ValuesLines(partitions, ids);
    ReadConcat(before + middle, after);
    ReadConcat(before, middle);
    var lines := ReadAll(before) + ReadAll(middle);
    FrameIsRead(partitions, ids);
    PrintedIsRead(partitions, ids);
    forall i | 0 <= i < |before| ensures !ReadAll(before)[i].Opens? {
      ReadAt(before, i);
    }
    NothingBeforeKey(ReadAll(before), ReadAll(middle), 0);
    NothingAfterSibling(lines, ReadAll(after), 0, false, |before|, |lines| - 1);
  }
}
