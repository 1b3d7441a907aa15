/**
 * The text of a shared trace file.  While writers are active the file is
 * an open array: "[", then every event followed by a comma, each event
 * possibly preceded by a newline, then a final newline.  Streaming
 * writers append "<event>,\n"; a buffered flush splices the encoded
 * array of its events in by cutting off its brackets.  Finalisation
 * drops the trailing ",\n" and appends "\n]".  JSON allows whitespace
 * after '[' and ',' and before ']' (section 2 of RFC 8259), so the
 * newlines are layout only and the finalised text is an array holding
 * every event written, in the order written.
 */
module TraceLayout {
  import opened TraceJson

  /** `substr($s, 1)`: the text without its first character ("" stays ""). */
  function DropFirst(s: string): (r: string)
    ensures s == [] ==> r == []
    ensures s != [] ==> s == [s[0]] + r
  {
    if s == [] then s else s[1..]
  }

  /** `substr($s, 0, strlen($s) - 1)`: the text without its last character ("" stays ""). */
  function DropLast(s: string): (r: string)
    ensures s == [] ==> r == []
    ensures s != [] ==> s == r + [s[|s| - 1]]
  {
    if s == [] then s else s[..|s| - 1]
  }

  /**
   * What `flush` appends for the encoded buffer: without the opening
   * bracket when the file already has content, always without the closing
   * bracket, then a comma and a newline.
   */
  function Spliced(encoded: string, fileEmpty: bool): string
  {
    DropLast(if fileEmpty then encoded else DropFirst(encoded)) + ",\n"
  }

  /** The finalisation step: drop the last two characters, append "\n]". */
  function Finalise(text: string): string
  {
    (if |text| >= 2 then text[..|text| - 2] else "") + "\n]"
  }

  /** An optional layout newline. */
  function NL(gap: bool): string
  {
    if gap then "\n" else ""
  }

  /** `n` times "no newline". */
  function NoGaps(n: nat): seq<bool>
  {
    seq(n, i => false)
  }

  /** One item of an open file: its layout newline, the item, a comma. */
  function Entry(gap: bool, item: string): string
  {
    NL(gap) + item + ","
  }

  /** Each item, preceded by its layout newline and followed by a comma. */
  function Entries(items: seq<string>, gaps: seq<bool>): string
    requires |items| == |gaps|
  {
    if items == [] then ""
    else Entries(items[..|items| - 1], gaps[..|gaps| - 1]) + Entry(gaps[|gaps| - 1], items[|items| - 1])
  }

  /** A file during writing: the opening bracket, the entries, a final newline. */
  function OpenText(items: seq<string>, gaps: seq<bool>): string
    requires |items| == |gaps|
  {
    "[" + Entries(items, gaps) + "\n"
  }

  /** The elements of a JSON array, comma-separated, each after its layout newline. */
  function Elements(items: seq<string>, gaps: seq<bool>): string
    requires |items| == |gaps| && items != []
  {
    if |items| == 1 then NL(gaps[0]) + items[0]
    else Elements(items[..|items| - 1], gaps[..|gaps| - 1]) + "," + NL(gaps[|gaps| - 1]) + items[|items| - 1]
  }

  /** A complete JSON array of the items, closed on a line of its own. */
  function ArrayText(items: seq<string>, gaps: seq<bool>): string
    requires |items| == |gaps| && items != []
  {
    "[" + Elements(items, gaps) + "\n]"
  }

  /** The entries are the array's elements with one extra comma at the end. */
  lemma {:induction false} EntriesAreElements(items: seq<string>, gaps: seq<bool>)
    requires |items| == |gaps| && items != []
    ensures Entries(items, gaps) == Elements(items, gaps) + ","
    decreases |items|
  {
    var n := |items|;
    if n == 1 {
      EntriesSingle(items[0], gaps[0]);
      assert items == [items[0]] && gaps == [gaps[0]];
    } else {
      EntriesAreElements(items[..n - 1], gaps[..n - 1]);
      Regroup(Elements(items[..n - 1], gaps[..n - 1]), NL(gaps[n - 1]), items[n - 1]);
    }
  }

  /** String arithmetic: one more comma-terminated element after a comma-terminated text. */
  lemma Regroup(e: string, nl: string, item: string)
    ensures (e + ",") + (nl + item + ",") == e + "," + nl + item + ","
  {
  }

  /** Finalising an open file with at least one event yields a complete array of those events. */
  lemma FinaliseOpenText(items: seq<string>, gaps: seq<bool>)
    requires |items| == |gaps| && items != []
    ensures Finalise(OpenText(items, gaps)) == ArrayText(items, gaps)
  {
    EntriesAreElements(items, gaps);
    var body := Elements(items, gaps);
    assert OpenText(items, gaps) == "[" + body + ",\n";
    assert OpenText(items, gaps)[..|OpenText(items, gaps)| - 2] == "[" + body;
  }

  /** Entries of two lists laid one after the other are the two entry texts concatenated. */
  lemma {:induction false} EntriesAppend(items: seq<string>, gaps: seq<bool>, more: seq<string>, moreGaps: seq<bool>)
    requires |items| == |gaps| && |more| == |moreGaps|
    ensures Entries(items + more, gaps + moreGaps) == Entries(items, gaps) + Entries(more, moreGaps)
    decreases |more|
  {
    if more == [] {
      assert items + more == items && gaps + moreGaps == gaps;
    } else {
      var m := |more|;
      var front, frontGaps := more[..m - 1], moreGaps[..m - 1];
      var last := Entry(moreGaps[m - 1], more[m - 1]);
      assert Entries(items + more, gaps + moreGaps) == Entries(items + front, gaps + frontGaps) + last by {
        assert (items + more)[..|items + more| - 1] == items + front;
        assert (gaps + moreGaps)[..|gaps + moreGaps| - 1] == gaps + frontGaps;
      }
      EntriesAppend(items, gaps, front, frontGaps);
      Assoc(Entries(items, gaps), Entries(front, frontGaps), last);
    }
  }

  /** String arithmetic: concatenation is associative. */
  lemma Assoc(a: string, b: string, c: string)
    ensures (a + b) + c == a + (b + c)
  {
  }

  /**
   * Without layout newlines after the first element, the elements are
   * exactly the items joined by commas, as `json_encode` writes them.
   */
  lemma {:induction false} ElementsJoin(items: seq<string>, first: bool)
    requires items != []
    ensures Elements(items, [first] + NoGaps(|items| - 1)) == NL(first) + Join(items)
    decreases |items|
  {
    var n := |items|;
    var gaps := [first] + NoGaps(n - 1);
    if n > 1 {
      assert gaps[..n - 1] == [first] + NoGaps(n - 2);
      ElementsJoin(items[..n - 1], first);
      JoinSnoc(items[..n - 1], items[n - 1]);
      assert items[..n - 1] + [items[n - 1]] == items;
      RegroupJoin(NL(first), Join(items[..n - 1]), items[n - 1]);
    }
  }

  /** String arithmetic: a comma and one more item after a prefix and a joined text. */
  lemma RegroupJoin(nl: string, j: string, item: string)
    ensures nl + j + "," + NL(false) + item == nl + (j + "," + item)
  {
  }

  /**
   * Without any layout newlines, the finalised array is `json_encode`'s
   * text for the items with a newline before the closing bracket.
   */
  lemma ArrayTextWithoutLayout(items: seq<string>)
    requires items != []
    ensures ArrayText(items, NoGaps(|items|)) == DropLast(EncodeArray(items)) + "\n]"
  {
    assert NoGaps(|items|) == [false] + NoGaps(|items| - 1);
    ElementsJoin(items, false);
    assert Elements(items, NoGaps(|items|)) == Join(items);
    assert DropLast(EncodeArray(items)) == "[" + Join(items);
  }

  /** A streamed event extends the open file by one entry, on a line of its own. */
  lemma StreamLine(items: seq<string>, gaps: seq<bool>, item: string)
    requires |items| == |gaps|
    ensures OpenText(items, gaps) + item + ",\n" == OpenText(items + [item], gaps + [true])
  {
    assert (items + [item])[..|items|] == items;
    assert (gaps + [true])[..|gaps|] == gaps;
  }

  /** The splice of a non-empty encoded array: its items joined, after "[" only into an empty file. */
  lemma SplicedArray(items: seq<string>)
    ensures Spliced(EncodeArray(items), true) == "[" + Join(items) + ",\n"
    ensures Spliced(EncodeArray(items), false) == Join(items) + ",\n"
  {
    assert DropLast(EncodeArray(items)) == "[" + Join(items);
    assert DropFirst(EncodeArray(items)) == Join(items) + "]";
  }

  /** Entries with a newline before the first item only are the items joined, then a comma. */
  lemma EntriesJoin(items: seq<string>, first: bool)
    requires items != []
    ensures Entries(items, [first] + NoGaps(|items| - 1)) == NL(first) + Join(items) + ","
  {
    ElementsJoin(items, first);
    EntriesAreElements(items, [first] + NoGaps(|items| - 1));
  }

  /** String arithmetic for an open file whose entries are `j` followed by a comma. */
  lemma Bracketed(j: string, entries: string)
    requires entries == j + ","
    ensures "[" + j + ",\n" == "[" + entries + "\n"
  {
  }

  /** String arithmetic for a splice `j + ",\n"` appended to an open file with entries `e`. */
  lemma BracketedSplice(e: string, j: string)
    ensures "[" + e + "\n" + (j + ",\n") == "[" + (e + ("\n" + j + ",")) + "\n"
  {
  }

  /** Flushing events into an empty file leaves an open file holding exactly those events. */
  lemma FlushIntoEmpty(items: seq<string>)
    requires items != []
    ensures Spliced(EncodeArray(items), true) == OpenText(items, NoGaps(|items|))
  {
    var n := |items|;
    assert Entries(items, NoGaps(n)) == Join(items) + "," by {
      assert NoGaps(n) == [false] + NoGaps(n - 1);
      EntriesJoin(items, false);
    }
    SplicedArray(items);
    Bracketed(Join(items), Entries(items, NoGaps(n)));
  }

  /**
   * Flushing events into an open file extends it by exactly those events,
   * after the ones already there; the first starts on a new line.
   */
  lemma FlushIntoOpen(items: seq<string>, gaps: seq<bool>, more: seq<string>)
    requires |items| == |gaps| && more != []
    ensures OpenText(items, gaps) + Spliced(EncodeArray(more), false)
         == OpenText(items + more, gaps + ([true] + NoGaps(|more| - 1)))
  {
    var moreGaps := [true] + NoGaps(|more| - 1);
    assert Entries(items + more, gaps + moreGaps) == Entries(items, gaps) + ("\n" + Join(more) + ",") by {
      EntriesJoin(more, true);
      EntriesAppend(items, gaps, more, moreGaps);
    }
    SplicedArray(more);
    BracketedSplice(Entries(items, gaps), Join(more));
  }

  /** The entries of a non-empty list start with the first item's entry. */
  lemma EntriesFirst(items: seq<string>, gaps: seq<bool>)
    requires |items| == |gaps| && items != []
    ensures Entries(items, gaps) == NL(gaps[0]) + items[0] + "," + Entries(items[1..], gaps[1..])
  {
    assert Entries(items, gaps) == Entries([items[0]], [gaps[0]]) + Entries(items[1..], gaps[1..]) by {
      EntriesAppend([items[0]], [gaps[0]], items[1..], gaps[1..]);
      assert [items[0]] + items[1..] == items && [gaps[0]] + gaps[1..] == gaps;
    }
    EntriesSingle(items[0], gaps[0]);
  }

  /** The entries of a single item. */
  lemma EntriesSingle(item: string, gap: bool)
    ensures Entries([item], [gap]) == NL(gap) + item + ","
  {
    assert [item][..0] == [] && [gap][..0] == [];
  }

  /** The character after the bracket of an open file is the first item's layout newline or its first character. */
  lemma OpenTextSecondChar(items: seq<string>, gaps: seq<bool>)
    requires |items| == |gaps| && items != [] && items[0] != []
    ensures |OpenText(items, gaps)| > 1
    ensures OpenText(items, gaps)[1] == if gaps[0] then '\n' else items[0][0]
  {
    var first := NL(gaps[0]) + items[0] + ",";
    var rest := Entries(items[1..], gaps[1..]);
    assert OpenText(items, gaps) == "[" + (first + rest) + "\n" by {
      EntriesFirst(items, gaps);
    }
    assert first[0] == if gaps[0] then '\n' else items[0][0];
    SecondChar(first, rest);
  }

  /** String arithmetic: the second character of "[" + first + rest + "\n". */
  lemma SecondChar(first: string, rest: string)
    requires first != []
    ensures |"[" + (first + rest) + "\n"| > 1 && ("[" + (first + rest) + "\n")[1] == first[0]
  {
  }

  /**
   * Without the emptiness guard in `flush`, an empty buffer would write
   * "[,\n" into an empty file, which is no open file of any events.
   */
  lemma EmptyFlushIntoEmpty(items: seq<string>, gaps: seq<bool>)
    requires |items| == |gaps|
    requires forall i :: 0 <= i < |items| ==> IsObjectText(items[i])
    ensures Spliced(EncodeArray([]), true) == "[,\n"
    ensures OpenText(items, gaps) != "[,\n"
  {
    EmptySpliced();
    if items == [] {
      assert |OpenText(items, gaps)| == 2 by {
        assert Entries(items, gaps) == "";
      }
    } else {
      assert IsObjectText(items[0]);
      OpenTextSecondChar(items, gaps);
    }
  }

  /** The splice of an empty buffer: "[,\n" into an empty file, ",\n" into one with content. */
  lemma EmptySpliced()
    ensures Spliced(EncodeArray([]), true) == "[,\n"
    ensures Spliced(EncodeArray([]), false) == ",\n"
  {
    assert EncodeArray([]) == "[]" by { assert Join([]) == ""; }
    assert DropLast("[]") == "[";
    assert DropLast(DropFirst("[]")) == "";
  }

  /**
   * Without the emptiness guard in `flush`, an empty buffer would write
   * ",\n" into an open file, whose finalised text then holds a comma
   * right before the closing bracket.
   */
  lemma EmptyFlushIntoOpen(items: seq<string>, gaps: seq<bool>)
    requires |items| == |gaps| && items != []
    ensures Spliced(EncodeArray([]), false) == ",\n"
    ensures Finalise(OpenText(items, gaps) + Spliced(EncodeArray([]), false)) == "[" + Elements(items, gaps) + ",\n\n]"
  {
    EmptySpliced();
    EntriesAreElements(items, gaps);
    TrailingComma(Elements(items, gaps), OpenText(items, gaps) + ",\n");
  }

  /** String arithmetic for finalising an open file with one more ",\n" at its end. */
  lemma TrailingComma(e: string, text: string)
    requires text == "[" + (e + ",") + "\n" + ",\n"
    ensures Finalise(text) == "[" + e + ",\n\n]"
  {
    assert text[..|text| - 2] == "[" + e + ",\n";
  }

  /** A complete array of two items. */
  lemma ArrayTextTwo(e1: string, e2: string, g1: bool, g2: bool)
    ensures ArrayText([e1, e2], [g1, g2]) == "[" + (NL(g1) + e1 + "," + NL(g2) + e2) + "\n]"
  {
    assert [e1, e2][..1] == [e1] && [g1, g2][..1] == [g1];
    assert Elements([e1], [g1]) == NL(g1) + e1;
    assert Elements([e1, e2], [g1, g2]) == Elements([e1], [g1]) + "," + NL(g2) + e2;
  }

  /** String arithmetic: two streamed items, spelt out. */
  lemma StreamedLiteral(e1: string, e2: string)
    ensures "[" + (NL(true) + e1 + "," + NL(true) + e2) + "\n]" == "[\n" + e1 + ",\n" + e2 + "\n]"
  {
  }

  /** String arithmetic: two flushed items, spelt out. */
  lemma FlushedLiteral(e1: string, e2: string)
    ensures "[" + (NL(false) + e1 + "," + NL(true) + e2) + "\n]" == "[" + e1 + ",\n" + e2 + "\n]"
  {
    assert NL(false) + e1 == e1;
  }

  /** Two events streamed into an empty file after its opening, then finalised. */
  lemma FinaliseTwoStreamed(e1: string, e2: string, text: string)
    requires text == "[\n" + (e1 + ",\n") + (e2 + ",\n")
    ensures Finalise(text) == "[\n" + e1 + ",\n" + e2 + "\n]"
    ensures Finalise(text) == ArrayText([e1, e2], [true, true])
  {
    assert text == OpenText([e1, e2], [true, true]) by {
      assert OpenText([], []) == "[\n";
      StreamLine([], [], e1);
      StreamLine([e1], [true], e2);
      assert [e1] + [e2] == [e1, e2] && [true] + [true] == [true, true];
    }
    FinaliseOpenText([e1, e2], [true, true]);
    ArrayTextTwo(e1, e2, true, true);
    StreamedLiteral(e1, e2);
  }

  /** One event flushed into an empty file opens the file with that event. */
  lemma FlushedFirst(e1: string)
    ensures Spliced(EncodeArray([e1]), true) == OpenText([e1], [false])
  {
    FlushIntoEmpty([e1]);
    assert NoGaps(1) == [false];
  }

  /** A second event flushed into that file follows the first on a new line. */
  lemma FlushedSecond(e1: string, e2: string)
    ensures OpenText([e1], [false]) + Spliced(EncodeArray([e2]), false) == OpenText([e1, e2], [false, true])
  {
    FlushIntoOpen([e1], [false], [e2]);
    assert [false] + ([true] + NoGaps(0)) == [false, true];
    assert [e1] + [e2] == [e1, e2];
  }

  /** One event flushed into an empty file, a second flushed after it, then finalised. */
  lemma FinaliseTwoFlushed(e1: string, e2: string, text: string)
    requires text == Spliced(EncodeArray([e1]), true) + Spliced(EncodeArray([e2]), false)
    ensures Finalise(text) == "[" + e1 + ",\n" + e2 + "\n]"
    ensures Finalise(text) == ArrayText([e1, e2], [false, true])
  {
    assert Finalise(text) == ArrayText([e1, e2], [false, true]) by {
      FlushedFirst(e1);
      FlushedSecond(e1, e2);
      FinaliseOpenText([e1, e2], [false, true]);
    }
    assert ArrayText([e1, e2], [false, true]) == "[" + e1 + ",\n" + e2 + "\n]" by {
      ArrayTextTwo(e1, e2, false, true);
      FlushedLiteral(e1, e2);
    }
  }

  /** One write to the shared file, as seen in the file's text. */
  datatype Write =
    | Open                       // a streaming tracer is constructed
    | Line(item: string)         // a streaming tracer logs one event
    | Splice(items: seq<string>) // a buffered tracer flushes its events, holding the lock

  /** The file's text after one write. */
  function Apply(text: string, w: Write): string
  {
    match w
    case Open => if text == "" then "[\n" else text
    case Line(item) => text + item + ",\n"
    case Splice(items) => if items == [] then text else text + Spliced(EncodeArray(items), text == "")
  }

  /** The text of a file, initially empty, after a history of writes. */
  function Run(history: seq<Write>): string
  {
    if history == [] then ""
    else Apply(Run(history[..|history| - 1]), history[|history| - 1])
  }

  /** The events of one write. */
  function ItemsOf(w: Write): seq<string>
  {
    match w
    case Open => []
    case Line(item) => [item]
    case Splice(items) => items
  }

  /** The events of a history, in the order written. */
  function Written(history: seq<Write>): seq<string>
  {
    if history == [] then []
    else Written(history[..|history| - 1]) + ItemsOf(history[|history| - 1])
  }

  /** A streaming tracer writes events only after it was constructed on the file. */
  predicate Ordered(history: seq<Write>)
  {
    history == [] ||
    (var prefix := history[..|history| - 1];
     Ordered(prefix) && (history[|history| - 1].Line? ==> Opened(prefix)))
  }

  /** Some streaming tracer was constructed on the file. */
  predicate Opened(history: seq<Write>)
  {
    history != [] && (history[|history| - 1] == Open || Opened(history[..|history| - 1]))
  }

  /**
   * One write keeps the file empty or an open file of the events written
   * so far; a streamed event needs a non-empty file, which its tracer's
   * construction guarantees.
   */
  lemma ApplyKeepsOpenText(text: string, items: seq<string>, gaps: seq<bool>, w: Write) returns (gaps': seq<bool>)
    requires |items| == |gaps|
    requires text == "" ==> items == []
    requires text != "" ==> text == OpenText(items, gaps)
    requires w.Line? ==> text != ""
    ensures |gaps'| == |items + ItemsOf(w)|
    ensures Apply(text, w) == "" <==> text == "" && w != Open && ItemsOf(w) == []
    ensures Apply(text, w) != "" ==> Apply(text, w) == OpenText(items + ItemsOf(w), gaps')
  {
    match w
    case Open =>
      gaps' := gaps;
      assert items + [] == items;
    case Line(item) =>
      StreamLine(items, gaps, item);
      gaps' := gaps + [true];
    case Splice(more) =>
      gaps' := SpliceKeepsOpenText(text, items, gaps, more);
  }

  /** The `Splice` case of `ApplyKeepsOpenText`. */
  lemma SpliceKeepsOpenText(text: string, items: seq<string>, gaps: seq<bool>, more: seq<string>) returns (gaps': seq<bool>)
    requires |items| == |gaps|
    requires text == "" ==> items == []
    requires text != "" ==> text == OpenText(items, gaps)
    ensures |gaps'| == |items + more|
    ensures Apply(text, Splice(more)) == "" <==> text == "" && more == []
    ensures Apply(text, Splice(more)) != "" ==> Apply(text, Splice(more)) == OpenText(items + more, gaps')
  {
    var after := Apply(text, Splice(more));
    if more == [] {
      gaps' := gaps;
      assert after == text && items + more == items;
    } else if text == "" {
      FlushIntoEmpty(more);
      gaps' := NoGaps(|more|);
      assert after == Spliced(EncodeArray(more), true) && items + more == more;
    } else {
      FlushIntoOpen(items, gaps, more);
      gaps' := gaps + ([true] + NoGaps(|more| - 1));
      assert after == text + Spliced(EncodeArray(more), false);
    }
  }

  /**
   * Whatever the interleaving of streaming constructions, streamed events
   * and flushes, the file is either still empty (nothing has been
   * written) or an open file of every event written, in order: the
   * opening bracket is written exactly once.
   */
  lemma {:induction false} HistoryIsOpenText(history: seq<Write>) returns (gaps: seq<bool>)
    requires Ordered(history)
    ensures |gaps| == |Written(history)|
    ensures Run(history) == "" <==> !Opened(history) && Written(history) == []
    ensures Run(history) != "" ==> Run(history) == OpenText(Written(history), gaps)
    decreases |history|
  {
    if history == [] {
      gaps := [];
      return;
    }
    var n := |history|;
    var prefix := history[..n - 1];
    var w := history[n - 1];
    var g := HistoryIsOpenText(prefix);
    var text, items := Run(prefix), Written(prefix);
    assert Run(history) == Apply(text, w);
    assert Written(history) == items + ItemsOf(w);
    gaps := ApplyKeepsOpenText(text, items, g, w);
  }

  /**
   * Finalising the file after any ordered history with at least one event
   * yields one JSON array holding the events of every writer, in order.
   */
  lemma FinalisedHistory(history: seq<Write>) returns (gaps: seq<bool>)
    requires Ordered(history) && Written(history) != []
    ensures |gaps| == |Written(history)|
    ensures Finalise(Run(history)) == ArrayText(Written(history), gaps)
  {
    gaps := HistoryIsOpenText(history);
    FinaliseOpenText(Written(history), gaps);
  }
}
