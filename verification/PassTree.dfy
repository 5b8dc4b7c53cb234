/**
 * Choosing an entry from the tree that `pass find` draws (`rust/src/native_app.rs`).
 * A drawing is rebuilt line by line with a stack cut back to the depth of each line.
 */
module PassTree {
  import opened Wrappers
  import opened Text

  // ---------- text ----------

  predicate IsTreeChar(c: char) {
    c == ' ' || c == '│' || c == '├' || c == '└' || c == '─' || c == '\t'
  }

  predicate IsBranchMarker(c: char) {
    c == '└' || c == '├'
  }

  function TrimEnd(line: string): string {
    if line != "" && IsWhitespace(line[|line| - 1]) then TrimEnd(line[..|line| - 1]) else line
  }

  function StripReturn(line: string): string {
    if line != "" && line[|line| - 1] == '\r' then line[..|line| - 1] else line
  }

  /** The lines of a text, without their terminators; no empty line after the last newline. */
  function Lines(text: string): seq<string> {
    var i := IndexOf(text, '\n');
    if text == "" then []
    else if i == |text| then [text]
    else [StripReturn(text[..i])] + Lines(text[i + 1..])
  }

  function Unlines(lines: seq<string>): string {
    if lines == [] then "" else lines[0] + "\n" + Unlines(lines[1..])
  }

  // ---------- one line ----------

  predicate PassLineIsTreeEntry(line: string) {
    exists i :: 0 <= i < |line| && IsBranchMarker(line[i])
  }

  function PrefixLength(line: string): (n: nat)
    ensures n <= |line|
  {
    if line != "" && IsTreeChar(line[0]) then 1 + PrefixLength(line[1..]) else 0
  }

  function Depth(line: string): nat {
    var columns := PrefixLength(line) / 4;
    if columns == 0 then 0 else columns - 1
  }

  method PassLineDepth(line: string) returns (depth: nat)
    ensures depth == Depth(line)
  {
    var prefixChars := 0;
    while prefixChars < |line| && IsTreeChar(line[prefixChars])
      invariant prefixChars <= |line|
      invariant PrefixLength(line) == prefixChars + PrefixLength(line[prefixChars..])
    {
      assert line[prefixChars..][1..] == line[prefixChars + 1..];
      prefixChars := prefixChars + 1;
    }
    depth := if prefixChars / 4 == 0 then 0 else prefixChars / 4 - 1;
  }

  function StripTreePrefix(line: string): string {
    line[PrefixLength(line)..]
  }

  /** Depth and name of an entry line; nothing for headers, blank lines and bare art. */
  function ReadLine(raw: string): Option<(nat, string)> {
    var line := TrimEnd(raw);
    if line == "" || !PassLineIsTreeEntry(line) || StripTreePrefix(line) == "" then None
    else Some((Depth(line), StripTreePrefix(line)))
  }

  // ---------- the stack loop ----------

  type Row = (nat, string)

  function Truncate(stack: seq<string>, depth: nat): seq<string> {
    if depth < |stack| then stack[..depth] else stack
  }

  ghost function StackAfter(stack: seq<string>, lines: seq<string>): seq<string>
    decreases |lines|
  {
    if lines == [] then stack
    else
      var row := ReadLine(lines[0]);
      StackAfter(if row.None? then stack else Truncate(stack, row.value.0) + [row.value.1], lines[1..])
  }

  ghost function RowsFrom(stack: seq<string>, lines: seq<string>): seq<Row>
    decreases |lines|
  {
    if lines == [] then []
    else
      var row := ReadLine(lines[0]);
      if row.None? then RowsFrom(stack, lines[1..])
      else
        var pushed := Truncate(stack, row.value.0) + [row.value.1];
        [(row.value.0, Join(pushed, '/'))] + RowsFrom(pushed, lines[1..])
  }

  /** Rows not followed by a deeper row. */
  function Candidates(rows: seq<Row>): seq<string> {
    if rows == [] then []
    else if |rows| == 1 || rows[1].0 <= rows[0].0 then [rows[0].1] + Candidates(rows[1..])
    else Candidates(rows[1..])
  }

  function First(paths: seq<string>, wanted: string -> bool): Option<string> {
    if paths == [] then None
    else if wanted(paths[0]) then Some(paths[0])
    else First(paths[1..], wanted)
  }

  predicate LeafIs(path: string, host: string) {
    var parts := Split(path, '/');
    parts[|parts| - 1] == host
  }

  predicate HasSegment(path: string, host: string) {
    host in Split(path, '/')
  }

  function Choose(candidates: seq<string>, host: string): Option<string> {
    var byLeaf := First(candidates, c => LeafIs(c, host));
    if byLeaf.Some? then byLeaf
    else
      var bySegment := First(candidates, c => HasSegment(c, host));
      if bySegment.Some? then bySegment else First(candidates, c => Contains(c, host))
  }

  method PassPickEntry(findOutput: string, host: string) returns (entry: Option<string>)
    ensures entry == Choose(Candidates(RowsFrom([], Lines(findOutput))), host)
  {
    var rows: seq<Row> := [];
    var stack: seq<string> := [];
    var lines := Lines(findOutput);
    for i := 0 to |lines|
      invariant RowsFrom([], lines) == rows + RowsFrom(stack, lines[i..])
    {
      assert lines[i..][1..] == lines[i + 1..];
      var line := TrimEnd(lines[i]);
      if line == "" {
        continue;
      }
      if !PassLineIsTreeEntry(line) {
        continue;
      }
      var depth := PassLineDepth(line);
      var name := StripTreePrefix(line);
      if name == "" {
        continue;
      }
      stack := Truncate(stack, depth);
      stack := stack + [name];
      rows := rows + [(depth, Join(stack, '/'))];
    }
    assert rows + [] == rows;
    entry := Choose(Candidates(rows), host);
  }

  // ---------- what was drawn ----------

  /** A forest, first child and next sibling. */
  datatype Forest = Empty | Grow(name: string, children: Forest, rest: Forest)

  ghost predicate LegalName(name: string) {
    && name != "" && '\n' !in name
    && !IsTreeChar(name[0]) && !IsWhitespace(name[|name| - 1])
  }

  ghost predicate LegalForest(f: Forest) {
    f.Grow? ==> LegalName(f.name) && LegalForest(f.children) && LegalForest(f.rest)
  }

  function Render(f: Forest, indent: string): seq<string> {
    match f
    case Empty => []
    case Grow(name, children, rest) =>
      var last := rest.Empty?;
      [indent + (if last then "└── " else "├── ") + name]
      + Render(children, indent + (if last then "    " else "│   "))
      + Render(rest, indent)
  }

  /** Every node in preorder: its depth and the slash-joined path of its ancestors and itself. */
  ghost function Preorder(f: Forest, path: seq<string>): seq<Row> {
    match f
    case Empty => []
    case Grow(name, children, rest) =>
      [(|path|, Join(path + [name], '/'))] + Preorder(children, path + [name]) + Preorder(rest, path)
  }

  /** The paths of the childless nodes, in preorder. */
  ghost function Leaves(f: Forest, path: seq<string>): seq<string> {
    match f
    case Empty => []
    case Grow(name, children, rest) =>
      (if children.Empty? then [Join(path + [name], '/')] else Leaves(children, path + [name]))
      + Leaves(rest, path)
  }

  ghost predicate IsIndent(indent: string, depth: nat) {
    |indent| == 4 * depth && forall i :: 0 <= i < |indent| ==> IsTreeChar(indent[i])
  }

  lemma {:induction false} PrefixOfArt(art: string, name: string)
    requires forall i :: 0 <= i < |art| ==> IsTreeChar(art[i])
    requires name != "" && !IsTreeChar(name[0])
    ensures PrefixLength(art + name) == |art|
  {
    if art == "" {
      assert art + name == name;
    } else {
      PrefixOfArt(art[1..], name);
      assert (art + name)[1..] == art[1..] + name;
    }
  }

  lemma {:induction false} TrimEndIsPrefix(line: string)
    ensures TrimEnd(line) <= line
    ensures TrimEnd(line) != "" ==> !IsWhitespace(TrimEnd(line)[|TrimEnd(line)| - 1])
  {
    if line != "" && IsWhitespace(line[|line| - 1]) {
      TrimEndIsPrefix(line[..|line| - 1]);
    }
  }

  lemma {:induction false} StrippedStart(line: string)
    ensures StripTreePrefix(line) != "" ==> !IsTreeChar(StripTreePrefix(line)[0])
  {
    if line != "" && IsTreeChar(line[0]) {
      StrippedStart(line[1..]);
      assert line[PrefixLength(line)..] == line[1..][PrefixLength(line[1..])..];
    }
  }

  /**
   * A drawn line reads back as its depth and name exactly when the name is not empty, does
   * not start with tree art and does not end in white space.
   */
  lemma DrawnLineReads(indent: string, depth: nat, branch: string, name: string)
    requires IsIndent(indent, depth)
    requires branch == "└── " || branch == "├── "
    ensures ReadLine(indent + branch + name) == Some((depth, name))
            <==> (name != "" && !IsTreeChar(name[0]) && !IsWhitespace(name[|name| - 1]))
  {
    var art := indent + branch;
    var line := art + name;
    TrimEndIsPrefix(line);
    StrippedStart(TrimEnd(line));
    if name != "" && !IsTreeChar(name[0]) && !IsWhitespace(name[|name| - 1]) {
      PrefixOfArt(art, name);
      assert line[|line| - 1] == name[|name| - 1];
      assert IsBranchMarker(line[|indent|]);
      assert line[|art|..] == name;
      assert |art| / 4 == depth + 1;
    }
  }

  ghost predicate IsArt(indent: string) {
    forall i :: 0 <= i < |indent| ==> IsTreeChar(indent[i])
  }

  /** A line reads as depth and name of its node exactly when its indent is all art, four columns a level. */
  lemma IndentReads(indent: string, depth: nat, branch: string, name: string)
    requires LegalName(name) && (branch == "└── " || branch == "├── ")
    ensures ReadLine(indent + branch + name) == Some((depth, name)) <==> IsArt(indent) && |indent| / 4 == depth
  {
    var line := indent + branch + name;
    assert line[|line| - 1] == name[|name| - 1] && IsBranchMarker(line[|indent|]);
    if IsArt(indent) {
      PrefixOfArt(indent + branch, name);
      assert line[|indent + branch|..] == name;
    } else {
      var i: nat :| i < |indent| && !IsTreeChar(indent[i]);
      PrefixStops(line, i);
    }
  }

  lemma {:induction false} PrefixStops(line: string, i: nat)
    requires i < |line| && !IsTreeChar(line[i])
    ensures PrefixLength(line) <= i
  {
    if IsTreeChar(line[0]) {
      PrefixStops(line[1..], i - 1);
    }
  }

  /** Anything else in the indent ends the art there: the rest of it becomes part of the name. */
  lemma IndentBroken(art: string, rest: string, branch: string, name: string)
    requires IsArt(art) && rest != "" && !IsTreeChar(rest[0])
    requires LegalName(name) && (branch == "└── " || branch == "├── ")
    ensures ReadLine(art + rest + branch + name)
         == Some((if |art| < 8 then 0 else |art| / 4 - 1, rest + branch + name))
  {
    var line := art + rest + branch + name;
    assert line[|line| - 1] == name[|name| - 1] && IsBranchMarker(line[|art + rest|]);
    PrefixOfArt(art, rest + branch + name);
    assert line == art + (rest + branch + name);
    assert line[|art|..] == rest + branch + name;
  }

  /** Columns filled with no-break spaces are such an indent: a child reads as a root, art and all. */
  lemma NoBreakSpacesBreakIndent(branch: string, name: string)
    requires LegalName(name) && (branch == "└── " || branch == "├── ")
    ensures ReadLine("│\U{00A0}\U{00A0} " + branch + name) == Some((0, "\U{00A0}\U{00A0} " + branch + name))
  {
    IndentBroken("│", "\U{00A0}\U{00A0} ", branch, name);
    assert "│" + "\U{00A0}\U{00A0} " == "│\U{00A0}\U{00A0} ";
  }

  lemma {:induction false} RowsConcat(stack: seq<string>, a: seq<string>, b: seq<string>)
    ensures RowsFrom(stack, a + b) == RowsFrom(stack, a) + RowsFrom(StackAfter(stack, a), b)
    ensures StackAfter(stack, a + b) == StackAfter(StackAfter(stack, a), b)
    decreases |a|
  {
    if a == [] {
      assert a + b == b;
    } else {
      assert (a + b)[1..] == a[1..] + b;
      var row := ReadLine(a[0]);
      RowsConcat(if row.None? then stack else Truncate(stack, row.value.0) + [row.value.1], a[1..], b);
    }
  }

  /**
   * The stack may hold anything beyond the current depth: the rows that come out are the
   * preorder of the drawn forest under its path, and the path survives below.
   */
  lemma {:induction false} RenderParses(f: Forest, indent: string, stack: seq<string>, path: seq<string>)
    requires LegalForest(f) && IsIndent(indent, |path|) && path <= stack
    ensures RowsFrom(stack, Render(f, indent)) == Preorder(f, path)
    ensures path <= StackAfter(stack, Render(f, indent))
    decreases f
  {
    if f.Grow? {
      var branch := if f.rest.Empty? then "└── " else "├── ";
      var deeper := indent + (if f.rest.Empty? then "    " else "│   ");
      var below, pushed := Render(f.children, deeper), path + [f.name];
      DrawnLineReads(indent, |path|, branch, f.name);
      DeeperIndent(indent, |path|, f.rest.Empty?);
      RenderParses(f.children, deeper, pushed, pushed);
      NodeParses(stack, path, indent + branch + f.name, f.name, below, Render(f.rest, indent));
      RenderParses(f.rest, indent, StackAfter(pushed, below), path);
    }
  }

  /** A node's line, then the lines below it, then the lines after it. */
  lemma NodeParses(stack: seq<string>, path: seq<string>, line: string, name: string,
                   below: seq<string>, after: seq<string>)
    requires path <= stack && ReadLine(line) == Some((|path|, name))
    requires path + [name] <= StackAfter(path + [name], below)
    ensures path <= StackAfter(path + [name], below)
    ensures RowsFrom(stack, [line] + below + after)
         == [(|path|, Join(path + [name], '/'))] + RowsFrom(path + [name], below)
            + RowsFrom(StackAfter(path + [name], below), after)
    ensures StackAfter(stack, [line] + below + after) == StackAfter(StackAfter(path + [name], below), after)
  {
    var pushed := path + [name];
    var row := (|path|, Join(pushed, '/'));
    assert Truncate(stack, |path|) == path;
    PrefixOfPrefix(path, name, StackAfter(pushed, below));
    RowsConcat(pushed, below, after);
    FirstRow(stack, line, below + after, |path|, name);
    assert [line] + below + after == [line] + (below + after);
    Regroup([row], RowsFrom(pushed, below), RowsFrom(StackAfter(pushed, below), after));
  }

  lemma Regroup(a: seq<Row>, b: seq<Row>, c: seq<Row>)
    ensures a + (b + c) == a + b + c
  {
  }

  lemma FirstRow(stack: seq<string>, line: string, lines: seq<string>, depth: nat, name: string)
    requires ReadLine(line) == Some((depth, name))
    ensures var pushed := Truncate(stack, depth) + [name];
            RowsFrom(stack, [line] + lines) == [(depth, Join(pushed, '/'))] + RowsFrom(pushed, lines)
            && StackAfter(stack, [line] + lines) == StackAfter(pushed, lines)
  {
    assert ([line] + lines)[1..] == lines;
  }

  lemma PrefixOfPrefix(path: seq<string>, name: string, stack: seq<string>)
    requires path + [name] <= stack
    ensures path <= stack
  {
    assert path == (path + [name])[..|path|] == stack[..|path|];
  }

  lemma DeeperIndent(indent: string, depth: nat, last: bool)
    requires IsIndent(indent, depth)
    ensures IsIndent(indent + (if last then "    " else "│   "), depth + 1)
  {
  }

  /** Depths in a preorder start at the depth of the path and never go above it. */
  lemma {:induction false} PreorderDepths(f: Forest, path: seq<string>)
    ensures forall i :: 0 <= i < |Preorder(f, path)| ==> Preorder(f, path)[i].0 >= |path|
    ensures f.Grow? ==> Preorder(f, path) != [] && Preorder(f, path)[0].0 == |path|
    ensures f.Empty? ==> Preorder(f, path) == []
  {
    if f.Grow? {
      PreorderDepths(f.children, path + [f.name]);
      PreorderDepths(f.rest, path);
    }
  }

  lemma {:induction false} CandidatesConcat(a: seq<Row>, b: seq<Row>)
    requires a != [] && b != [] ==> b[0].0 <= a[|a| - 1].0
    ensures Candidates(a + b) == Candidates(a) + Candidates(b)
    decreases |a|
  {
    if a == [] {
      assert a + b == b;
    } else {
      assert (a + b)[1..] == a[1..] + b;
      CandidatesConcat(a[1..], b);
      if |a| == 1 {
        assert a[1..] + b == b;
      } else {
        assert (a + b)[1] == a[1];
      }
    }
  }

  /** The "next depth is not greater" test picks exactly the childless nodes. */
  lemma {:induction false} CandidatesAreLeaves(f: Forest, path: seq<string>)
    ensures Candidates(Preorder(f, path)) == Leaves(f, path)
  {
    if f.Grow? {
      var below, after := Preorder(f.children, path + [f.name]), Preorder(f.rest, path);
      var node := (|path|, Join(path + [f.name], '/'));
      PreorderDepths(f.children, path + [f.name]);
      PreorderDepths(f.rest, path);
      CandidatesAreLeaves(f.children, path + [f.name]);
      CandidatesAreLeaves(f.rest, path);
      CandidatesConcat([node] + below, after);
      assert ([node] + below)[1..] == below;
    }
  }

  // ---------- whole listings ----------

  /** A listing is a run of blocks: lines that are no entries, then a drawing. */
  datatype Block = Block(header: seq<string>, forest: Forest)

  ghost predicate LegalBlock(b: Block) {
    && LegalForest(b.forest)
    && forall h :: h in b.header ==> '\n' !in h && forall i :: 0 <= i < |h| ==> !IsBranchMarker(h[i])
  }

  ghost predicate LegalListing(blocks: seq<Block>) {
    forall b :: b in blocks ==> LegalBlock(b)
  }

  ghost function Listing(blocks: seq<Block>): seq<string> {
    if blocks == [] then []
    else blocks[0].header + Render(blocks[0].forest, "") + Listing(blocks[1..])
  }

  ghost function AllRows(blocks: seq<Block>): seq<Row> {
    if blocks == [] then [] else Preorder(blocks[0].forest, []) + AllRows(blocks[1..])
  }

  ghost function AllLeaves(blocks: seq<Block>): seq<string> {
    if blocks == [] then [] else Leaves(blocks[0].forest, []) + AllLeaves(blocks[1..])
  }

  lemma {:induction false} HeadersAreSkipped(stack: seq<string>, header: seq<string>)
    requires forall h :: h in header ==> forall i :: 0 <= i < |h| ==> !IsBranchMarker(h[i])
    ensures RowsFrom(stack, header) == [] && StackAfter(stack, header) == stack
  {
    if header != [] {
      TrimEndIsPrefix(header[0]);
      assert header[0] in header;
      HeadersAreSkipped(stack, header[1..]);
    }
  }

  lemma {:induction false} ListingParses(blocks: seq<Block>, stack: seq<string>)
    requires LegalListing(blocks)
    ensures RowsFrom(stack, Listing(blocks)) == AllRows(blocks)
  {
    if blocks != [] {
      var b := blocks[0];
      assert b in blocks;
      BlockParses(b, stack);
      RowsConcat(stack, b.header + Render(b.forest, ""), Listing(blocks[1..]));
      ListingParses(blocks[1..], StackAfter(stack, b.header + Render(b.forest, "")));
    }
  }

  lemma BlockParses(b: Block, stack: seq<string>)
    requires LegalBlock(b)
    ensures RowsFrom(stack, b.header + Render(b.forest, "")) == Preorder(b.forest, [])
  {
    HeadersAreSkipped(stack, b.header);
    RenderParses(b.forest, "", stack, []);
    RowsConcat(stack, b.header, Render(b.forest, ""));
  }

  lemma {:induction false} ListingCandidates(blocks: seq<Block>)
    ensures Candidates(AllRows(blocks)) == AllLeaves(blocks)
    ensures AllRows(blocks) != [] ==> AllRows(blocks)[0].0 == 0
  {
    if blocks != [] {
      var rows := Preorder(blocks[0].forest, []);
      PreorderDepths(blocks[0].forest, []);
      CandidatesAreLeaves(blocks[0].forest, []);
      ListingCandidates(blocks[1..]);
      CandidatesConcat(rows, AllRows(blocks[1..]));
    }
  }

  ghost predicate NoNewlines(lines: seq<string>) {
    forall l :: l in lines ==> '\n' !in l
  }

  /** Splitting a printed text gives its lines back, as far as reading rows can tell. */
  lemma {:induction false} RowsOfText(stack: seq<string>, lines: seq<string>)
    requires NoNewlines(lines)
    ensures RowsFrom(stack, Lines(Unlines(lines))) == RowsFrom(stack, lines)
    decreases |lines|
  {
    if lines != [] {
      var l, tail := lines[0], Unlines(lines[1..]);
      assert l in lines;
      var text := Unlines(lines);
      assert text == l + ['\n'] + tail;
      IndexOfConcat(l, '\n', tail);
      assert text[..|l|] == l && text[|l| + 1..] == tail;
      assert TrimEnd(StripReturn(l)) == TrimEnd(l);
      var row := ReadLine(l);
      RowsOfText(if row.None? then stack else Truncate(stack, row.value.0) + [row.value.1], lines[1..]);
    }
  }

  lemma {:induction false} RenderHasNoNewlines(f: Forest, indent: string)
    requires LegalForest(f) && '\n' !in indent
    ensures NoNewlines(Render(f, indent))
  {
    if f.Grow? {
      RenderHasNoNewlines(f.children, indent + (if f.rest.Empty? then "    " else "│   "));
      RenderHasNoNewlines(f.rest, indent);
    }
  }

  lemma {:induction false} ListingHasNoNewlines(blocks: seq<Block>)
    requires LegalListing(blocks)
    ensures NoNewlines(Listing(blocks))
  {
    if blocks != [] {
      assert blocks[0] in blocks;
      RenderHasNoNewlines(blocks[0].forest, "");
      ListingHasNoNewlines(blocks[1..]);
    }
  }

  /**
   * Round trip: from the printed text of any listing, the loop recovers every node of
   * every drawing with its depth and full path, and the candidates are the childless ones.
   */
  lemma RenderParseRoundTrip(blocks: seq<Block>)
    requires LegalListing(blocks)
    ensures RowsFrom([], Lines(Unlines(Listing(blocks)))) == AllRows(blocks)
    ensures Candidates(RowsFrom([], Lines(Unlines(Listing(blocks))))) == AllLeaves(blocks)
  {
    ListingHasNoNewlines(blocks);
    RowsOfText([], Listing(blocks));
    ListingParses(blocks, []);
    ListingCandidates(blocks);
  }

  // ---------- the choice ----------

  lemma {:induction false} FirstFinds(paths: seq<string>, wanted: string -> bool) returns (i: nat)
    ensures i <= |paths| && forall j :: 0 <= j < i ==> !wanted(paths[j])
    ensures i < |paths| ==> wanted(paths[i])
    ensures First(paths, wanted) == if i < |paths| then Some(paths[i]) else None
  {
    if paths == [] || wanted(paths[0]) {
      i := 0;
    } else {
      i := FirstFinds(paths[1..], wanted);
      i := i + 1;
    }
  }

  /** How well a path answers the query: by its last segment, by a segment, by a substring, not at all. */
  ghost function Rank(path: string, host: string): nat {
    if LeafIs(path, host) then 3 else if HasSegment(path, host) then 2 else if Contains(path, host) then 1 else 0
  }

  lemma RankBounds(path: string, host: string)
    ensures LeafIs(path, host) ==> HasSegment(path, host)
    ensures HasSegment(path, host) ==> Contains(path, host)
    ensures Rank(path, host) == 0 <==> !Contains(path, host)
  {
    if HasSegment(path, host) {
      PartIsContained(path, '/', host);
    }
  }

  /** `i` is the first of the best-ranked paths. */
  ghost predicate BestThenFirst(paths: seq<string>, host: string, i: nat) {
    && i < |paths| && Rank(paths[i], host) > 0
    && (forall j :: 0 <= j < |paths| ==> Rank(paths[j], host) <= Rank(paths[i], host))
    && (forall j :: 0 <= j < i ==> Rank(paths[j], host) < Rank(paths[i], host))
  }

  /** The choice is the first of the best-ranked paths; there is none only if nothing contains the host. */
  lemma ChooseIsBestThenFirst(paths: seq<string>, host: string) returns (i: nat)
    ensures Choose(paths, host) == if i < |paths| then Some(paths[i]) else None
    ensures i < |paths| ==> BestThenFirst(paths, host, i)
    ensures i >= |paths| ==> forall p :: p in paths ==> !Contains(p, host)
  {
    forall p ensures LeafIs(p, host) ==> HasSegment(p, host)
             ensures HasSegment(p, host) ==> Contains(p, host)
             ensures Rank(p, host) == 0 <==> !Contains(p, host) {
      RankBounds(p, host);
    }
    i := FirstFinds(paths, c => LeafIs(c, host));
    if i == |paths| {
      i := FirstFinds(paths, c => HasSegment(c, host));
      if i == |paths| {
        i := FirstFinds(paths, c => Contains(c, host));
      }
    }
  }

  /** On any printed listing the pick is the best, then first, childless node of the drawings. */
  lemma PickFromListing(blocks: seq<Block>, host: string) returns (i: nat)
    requires LegalListing(blocks)
    ensures Choose(Candidates(RowsFrom([], Lines(Unlines(Listing(blocks))))), host)
         == if i < |AllLeaves(blocks)| then Some(AllLeaves(blocks)[i]) else None
    ensures i < |AllLeaves(blocks)| ==> BestThenFirst(AllLeaves(blocks), host, i)
    ensures i >= |AllLeaves(blocks)| ==> forall p :: p in AllLeaves(blocks) ==> !Contains(p, host)
  {
    RenderParseRoundTrip(blocks);
    i := ChooseIsBestThenFirst(AllLeaves(blocks), host);
  }

  // ---------- the choice, in the names that were drawn ----------

  /** The names on the way to each childless node, its own last; in preorder. */
  ghost function Trails(f: Forest, path: seq<string>): seq<seq<string>> {
    match f
    case Empty => []
    case Grow(name, children, rest) =>
      (if children.Empty? then [path + [name]] else Trails(children, path + [name])) + Trails(rest, path)
  }

  ghost function AllTrails(blocks: seq<Block>): seq<seq<string>> {
    if blocks == [] then [] else Trails(blocks[0].forest, []) + AllTrails(blocks[1..])
  }

  /** File names, which have no slash. */
  ghost predicate FileNames(f: Forest) {
    f.Grow? ==> '/' !in f.name && FileNames(f.children) && FileNames(f.rest)
  }

  ghost predicate IsTrail(trail: seq<string>) {
    trail != [] && forall name :: name in trail ==> '/' !in name
  }

  ghost predicate TrailsOf(paths: seq<string>, trails: seq<seq<string>>) {
    |paths| == |trails| && forall i :: 0 <= i < |paths| ==> IsTrail(trails[i]) && paths[i] == Join(trails[i], '/')
  }

  lemma {:induction false} LeavesAreTrails(f: Forest, path: seq<string>)
    requires FileNames(f) && forall name :: name in path ==> '/' !in name
    ensures TrailsOf(Leaves(f, path), Trails(f, path))
  {
    if f.Grow? {
      LeavesAreTrails(f.children, path + [f.name]);
      LeavesAreTrails(f.rest, path);
    }
  }

  lemma {:induction false} ListingTrails(blocks: seq<Block>)
    requires forall b :: b in blocks ==> FileNames(b.forest)
    ensures TrailsOf(AllLeaves(blocks), AllTrails(blocks))
  {
    if blocks != [] {
      assert blocks[0] in blocks;
      LeavesAreTrails(blocks[0].forest, []);
      ListingTrails(blocks[1..]);
    }
  }

  /** The last segment of a path is the node's own name, and its segments are the names on the way. */
  lemma SegmentsAreNames(trail: seq<string>, host: string)
    requires IsTrail(trail)
    ensures LeafIs(Join(trail, '/'), host) <==> trail[|trail| - 1] == host
    ensures HasSegment(Join(trail, '/'), host) <==> host in trail
  {
    SplitOfJoin(trail, '/');
  }

  /**
   * The index of the first trail that ends in `host`; without one, of the first with `host` on
   * it; without one, of the first whose path has `host` somewhere in it; without one, no index.
   */
  ghost predicate NamedFirst(trails: seq<seq<string>>, host: string, i: nat)
    requires forall j :: 0 <= j < |trails| ==> trails[j] != []
  {
    if exists j :: 0 <= j < |trails| && trails[j][|trails[j]| - 1] == host then
      i < |trails| && trails[i][|trails[i]| - 1] == host
      && forall j :: 0 <= j < i ==> trails[j][|trails[j]| - 1] != host
    else if exists j :: 0 <= j < |trails| && host in trails[j] then
      i < |trails| && host in trails[i] && forall j :: 0 <= j < i ==> host !in trails[j]
    else if exists j :: 0 <= j < |trails| && Contains(Join(trails[j], '/'), host) then
      i < |trails| && Contains(Join(trails[i], '/'), host)
      && forall j :: 0 <= j < i ==> !Contains(Join(trails[j], '/'), host)
    else i >= |trails|
  }

  lemma RankByName(trail: seq<string>, host: string)
    requires IsTrail(trail)
    ensures var path := Join(trail, '/');
      && (trail[|trail| - 1] == host ==> Rank(path, host) == 3)
      && (trail[|trail| - 1] != host && host in trail ==> Rank(path, host) == 2)
      && (host !in trail && Contains(path, host) ==> Rank(path, host) == 1)
      && (Rank(path, host) == 0 <==> !Contains(path, host))
      && (host in trail ==> Contains(path, host))
  {
    SegmentsAreNames(trail, host);
    RankBounds(Join(trail, '/'), host);
  }

  lemma BestIsNamedFirst(paths: seq<string>, trails: seq<seq<string>>, host: string, i: nat)
    requires TrailsOf(paths, trails)
    requires i < |paths| ==> BestThenFirst(paths, host, i)
    requires i >= |paths| ==> forall p :: p in paths ==> !Contains(p, host)
    ensures forall j :: 0 <= j < |trails| ==> trails[j] != []
    ensures NamedFirst(trails, host, i)
  {
    forall j | 0 <= j < |trails|
      ensures trails[j] != [] && paths[j] in paths
      ensures trails[j][|trails[j]| - 1] == host <==> Rank(paths[j], host) == 3
      ensures host in trails[j] <==> Rank(paths[j], host) >= 2
      ensures Contains(Join(trails[j], '/'), host) <==> Rank(paths[j], host) >= 1
    {
      RankByName(trails[j], host);
    }
  }

  /** The pick from a printed listing, in the names that were drawn. */
  lemma PickByName(blocks: seq<Block>, host: string) returns (i: nat)
    requires LegalListing(blocks) && forall b :: b in blocks ==> FileNames(b.forest)
    ensures var trails := AllTrails(blocks);
      && (forall j :: 0 <= j < |trails| ==> trails[j] != [])
      && NamedFirst(trails, host, i)
      && Choose(Candidates(RowsFrom([], Lines(Unlines(Listing(blocks))))), host)
         == if i < |trails| then Some(Join(trails[i], '/')) else None
  {
    ListingTrails(blocks);
    i := PickFromListing(blocks, host);
    BestIsNamedFirst(AllLeaves(blocks), AllTrails(blocks), host, i);
  }
}
