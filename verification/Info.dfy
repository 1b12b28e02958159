/** `ConvertToMapInfo` (Content/RedisClient.cpp): the text of an INFO reply as a map. */
module Info {
  import opened Bytes

  const NEWLINE: Byte := 0x0a
  const RETURN: Byte := 0x0d
  const HASH: Byte := 0x23
  const COLON: Byte := 0x3a

  type InfoMap = map<ByteString, ByteString>

  /** What successive `std::getline` calls give: a last line without newline counts, an empty rest does not. */
  ghost function Lines(text: ByteString): seq<ByteString>
    decreases |text|
  {
    if text == [] then []
    else
      var end := IndexOf(text, NEWLINE, 0);
      [text[..end]] + if end == |text| then [] else Lines(text[end + 1..])
  }

  predicate IsSkipped(line: ByteString) {
    line == [] || line[0] == RETURN || line[0] == HASH
  }

  /** `map::insert`: an entry already there stays. */
  function Inserted(m: InfoMap, key: ByteString, value: ByteString): InfoMap {
    if key in m then m else m[key := value]
  }

  /** The key is what precedes the first colon of a content line. */
  ghost function KeyOf(line: ByteString): ByteString
    requires COLON in line
  {
    line[..IndexOf(line, COLON, 0)]
  }

  ghost function ValueOf(line: ByteString): ByteString
    requires COLON in line
  {
    ColonWithin(line);
    line[IndexOf(line, COLON, 0) + 1..]
  }

  lemma ColonWithin(line: ByteString)
    ensures IndexOf(line, COLON, 0) < |line| <==> COLON in line
  {
    assert line[0..|line|] == line;
  }

  /** The map a list of lines adds to, up to the first content line without a colon. */
  ghost function Collect(lines: seq<ByteString>, m: InfoMap): InfoMap {
    if lines == [] then m
    else if IsSkipped(lines[0]) then Collect(lines[1..], m)
    else if COLON !in lines[0] then m
    else Collect(lines[1..], Inserted(m, KeyOf(lines[0]), ValueOf(lines[0])))
  }

  ghost predicate AllReadable(lines: seq<ByteString>) {
    forall k :: 0 <= k < |lines| ==> IsSkipped(lines[k]) || COLON in lines[k]
  }

  method Find(s: ByteString, c: Byte, from: nat) returns (i: nat)
    requires from <= |s|
    ensures i == IndexOf(s, c, from)
  {
    i := from;
    while i < |s| && s[i] != c
      invariant from <= i <= |s| && c !in s[from..i]
    {
      assert s[from..i + 1] == s[from..i] + [s[i]];
      i := i + 1;
    }
    IndexOfIsFirst(s, c, from, i);
  }

  lemma LinesNext(line: ByteString, rest: ByteString)
    requires NEWLINE !in line
    ensures Lines(line + [NEWLINE] + rest) == [line] + Lines(rest)
  {
    var text := line + [NEWLINE] + rest;
    assert text[0..|line|] == line && text[|line|] == NEWLINE;
    IndexOfIsFirst(text, NEWLINE, 0, |line|);
    assert text[..|line|] == line && text[|line| + 1..] == rest;
  }

  /** One `std::getline` on what is left of the stream. */
  method GetLine(stream: ByteString) returns (line: ByteString, rest: ByteString)
    requires stream != []
    ensures Lines(stream) == [line] + Lines(rest) && |rest| < |stream|
  {
    var end := Find(stream, NEWLINE, 0);
    line := stream[..end];
    if end == |stream| { return line, []; }
    rest := stream[end + 1..];
  }

  lemma CollectNext(line: ByteString, lines: seq<ByteString>, m: InfoMap)
    ensures AllReadable([line] + lines) <==> (IsSkipped(line) || COLON in line) && AllReadable(lines)
    ensures Collect([line] + lines, m)
            == if IsSkipped(line) then Collect(lines, m)
               else if COLON !in line then m
               else Collect(lines, Inserted(m, KeyOf(line), ValueOf(line)))
  {
    assert ([line] + lines)[1..] == lines;
    assert ([line] + lines)[0] == line && forall k :: 0 <= k < |lines| ==> ([line] + lines)[k + 1] == lines[k];
  }

  /** It fails exactly when some content line has no colon. Otherwise the first entry of each key wins. */
  method ConvertToMapInfo(text: ByteString, m0: InfoMap) returns (ok: bool, m: InfoMap)
    ensures ok <==> AllReadable(Lines(text))
    ensures m == Collect(Lines(text), m0)
  {
    m := m0;
    var rest := text;
    while rest != []
      invariant AllReadable(Lines(rest)) <==> AllReadable(Lines(text))
      invariant Collect(Lines(rest), m) == Collect(Lines(text), m0)
      decreases |rest|
    {
      var line;
      line, rest := GetLine(rest);
      CollectNext(line, Lines(rest), m);
      if IsSkipped(line) { continue; }
      var colon := Find(line, COLON, 0);
      ColonWithin(line);
      if colon == |line| { return false, m; }
      m := Inserted(m, line[..colon], line[colon + 1..]);
    }
    ok := true;
  }

  // Printing an INFO text and reading it back.

  datatype Line =
    | Pair(key: ByteString, value: ByteString)
    | Comment(text: ByteString)
    | Blank

  /** Lines end in a newline, with a carriage return before it or not. */
  function Print(line: Line, cr: bool): ByteString {
    var end := if cr then [RETURN] else [];
    match line
    case Pair(k, v) => k + [COLON] + v + end
    case Comment(t) => [HASH] + t + end
    case Blank => end
  }

  function PrintAll(lines: seq<Line>, cr: bool): ByteString {
    if lines == [] then [] else Print(lines[0], cr) + [NEWLINE] + PrintAll(lines[1..], cr)
  }

  /** Nothing contains a line break, and a key does not look like a comment or hold a colon. */
  predicate Printable(line: Line) {
    match line
    case Pair(k, v) =>
      NEWLINE !in k && NEWLINE !in v && COLON !in k && (k != [] ==> k[0] != RETURN && k[0] != HASH)
    case Comment(t) => NEWLINE !in t
    case Blank => true
  }

  /** The entries of the text, the first of each key winning. A value keeps the carriage return. */
  ghost function Entries(lines: seq<Line>, cr: bool, m: InfoMap): InfoMap {
    if lines == [] then m
    else
      Entries(lines[1..], cr,
              if lines[0].Pair? then Inserted(m, lines[0].key, lines[0].value + if cr then [RETURN] else []) else m)
  }

  lemma NoBreakInside(line: Line, cr: bool)
    requires Printable(line)
    ensures NEWLINE !in Print(line, cr)
  {
  }

  function PrintedLines(lines: seq<Line>, cr: bool): (printed: seq<ByteString>)
    ensures |printed| == |lines| && forall k :: 0 <= k < |lines| ==> printed[k] == Print(lines[k], cr)
  {
    if lines == [] then [] else [Print(lines[0], cr)] + PrintedLines(lines[1..], cr)
  }

  lemma {:induction false} LinesOfPrinted(lines: seq<Line>, cr: bool)
    requires forall k :: 0 <= k < |lines| ==> Printable(lines[k])
    ensures Lines(PrintAll(lines, cr)) == PrintedLines(lines, cr)
  {
    if lines == [] {
    } else {
      NoBreakInside(lines[0], cr);
      LinesNext(Print(lines[0], cr), PrintAll(lines[1..], cr));
      LinesOfPrinted(lines[1..], cr);
    }
  }

  lemma PairIsRead(line: Line, cr: bool)
    requires Printable(line) && line.Pair?
    ensures var p := Print(line, cr);
            !IsSkipped(p) && COLON in p && KeyOf(p) == line.key && ValueOf(p) == line.value + if cr then [RETURN] else []
  {
    var p, k := Print(line, cr), |line.key|;
    assert p[0..k] == line.key && p[k] == COLON;
    IndexOfIsFirst(p, COLON, 0, k);
    assert p[..k] == line.key;
    assert p[k + 1..] == line.value + if cr then [RETURN] else [];
  }

  lemma {:induction false} CollectOfPrinted(lines: seq<Line>, printed: seq<ByteString>, cr: bool, m: InfoMap)
    requires forall k :: 0 <= k < |lines| ==> Printable(lines[k])
    requires |printed| == |lines| && forall k :: 0 <= k < |lines| ==> printed[k] == Print(lines[k], cr)
    ensures AllReadable(printed) && Collect(printed, m) == Entries(lines, cr, m)
  {
    if lines == [] {
    } else {
      var m' := if lines[0].Pair? then Inserted(m, lines[0].key, lines[0].value + if cr then [RETURN] else []) else m;
      if lines[0].Pair? { PairIsRead(lines[0], cr); }
      CollectOfPrinted(lines[1..], printed[1..], cr, m');
      forall k | 0 <= k < |printed| ensures IsSkipped(printed[k]) || COLON in printed[k] {
        if lines[k].Pair? { PairIsRead(lines[k], cr); }
      }
    }
  }

  /** Reading back a printed text succeeds and gives its entries. */
  lemma InfoRoundTrip(lines: seq<Line>, cr: bool, m: InfoMap)
    requires forall k :: 0 <= k < |lines| ==> Printable(lines[k])
    ensures var read := Lines(PrintAll(lines, cr));
            AllReadable(read) && Collect(read, m) == Entries(lines, cr, m)
  {
    LinesOfPrinted(lines, cr);
    CollectOfPrinted(lines, Lines(PrintAll(lines, cr)), cr, m);
  }

  /** The first pair with a key decides what the key is mapped to. */
  lemma {:induction false} FirstEntryWins(lines: seq<Line>, cr: bool, m: InfoMap, k: nat)
    requires k < |lines| && lines[k].Pair? && lines[k].key !in m
    requires forall j :: 0 <= j < k ==> !(lines[j].Pair? && lines[j].key == lines[k].key)
    ensures lines[k].key in Entries(lines, cr, m)
            && Entries(lines, cr, m)[lines[k].key] == lines[k].value + if cr then [RETURN] else []
  {
    var m' := if lines[0].Pair? then Inserted(m, lines[0].key, lines[0].value + if cr then [RETURN] else []) else m;
    if k == 0 {
      EntriesKeep(lines[1..], cr, m', lines[0].key);
    } else {
      FirstEntryWins(lines[1..], cr, m', k - 1);
    }
  }

  lemma {:induction false} EntriesKeep(lines: seq<Line>, cr: bool, m: InfoMap, key: ByteString)
    requires key in m
    ensures key in Entries(lines, cr, m) && Entries(lines, cr, m)[key] == m[key]
  {
    if lines == [] {
    } else {
      EntriesKeep(lines[1..], cr,
                  if lines[0].Pair? then Inserted(m, lines[0].key, lines[0].value + if cr then [RETURN] else []) else m, key);
    }
  }
}
