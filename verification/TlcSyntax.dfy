/** The syntax TLC writes, as trees that also record every free choice of layout and of
    string escapes. `Text` is what a tree looks like, `Meaning` the value it denotes; the
    theorem is that the parser recovers the meaning from the text. */
module TlcSyntax {
  import opened TlcParser

  datatype Glyph = Raw(c: char) | Escape(letter: char) | Unicode(hex: string)

  datatype Syntax =
    | Truth(b: bool)
    | Number(negative: bool, digits: string)
    | Name(id: string)
    | Quoted(glyphs: seq<Glyph>)
    | SetText(items: ItemList)
    | FunText(entries: EntryList)

  /** `NoItems` is the blank between empty braces, or after a last comma. */
  datatype ItemList =
    | EndItems
    | NoItems(pad: string)
    | ConsItem(before: string, body: Syntax, after: string, rest: ItemList)

  datatype EntryList =
    | EndEntries
    | NoEntries(pad: string)
    | ConsEntry(before: string, key: Syntax, beforeArrow: string,
                afterArrow: string, body: Syntax, after: string, rest: EntryList)

  predicate AllSpace(s: string) {
    forall i :: 0 <= i < |s| ==> IsSpace(s[i])
  }

  predicate IsKey(s: string) {
    IsIdentifier(s) && s != "TRUE" && s != "FALSE"
  }

  predicate GlyphOk(g: Glyph) {
    match g
    case Raw(c) => c as int >= 0x20 && c != '"' && c != '\\'
    case Escape(letter) => SimpleEscape(letter).Ok?
    case Unicode(hex) => |hex| == 4 && Hex4(hex).Ok?
  }

  predicate WellFormed(t: Syntax)
    decreases t, 0
  {
    match t
    case Truth(_) => true
    case Number(_, digits) => digits != "" && AllDigits(digits)
    case Name(id) => IsKey(id)
    case Quoted(glyphs) => forall i :: 0 <= i < |glyphs| ==> GlyphOk(glyphs[i])
    case SetText(items) => WellFormedItems(items)
    case FunText(entries) => WellFormedEntries(entries)
  }

  /** No `|->` anywhere. */
  predicate NoArrow(s: string) {
    forall i :: 0 <= i && i + 3 <= |s| ==> !(s[i] == '|' && s[i + 1] == '-' && s[i + 2] == '>')
  }

  /** A key is written as a scalar without an arrow in it. */
  predicate WellFormedKey(key: Syntax)
    decreases key, 1
  {
    !key.SetText? && !key.FunText? && WellFormed(key) && NoArrow(Text(key))
  }

  predicate WellFormedItems(items: ItemList)
    decreases items, 0
  {
    match items
    case EndItems => true
    case NoItems(pad) => AllSpace(pad)
    case ConsItem(before, body, after, rest) =>
      AllSpace(before) && WellFormed(body) && AllSpace(after) && WellFormedItems(rest)
  }

  predicate WellFormedEntries(entries: EntryList)
    decreases entries, 0
  {
    match entries
    case EndEntries => true
    case NoEntries(pad) => AllSpace(pad)
    case ConsEntry(before, key, beforeArrow, afterArrow, body, after, rest) =>
      && AllSpace(before) && WellFormedKey(key) && AllSpace(beforeArrow) && AllSpace(afterArrow)
      && WellFormed(body) && AllSpace(after) && WellFormedEntries(rest)
  }

  function GlyphText(g: Glyph): string {
    match g
    case Raw(c) => [c]
    case Escape(letter) => ['\\', letter]
    case Unicode(hex) => "\\u" + hex
  }

  function GlyphsText(gs: seq<Glyph>): string {
    if gs == [] then "" else GlyphText(gs[0]) + GlyphsText(gs[1..])
  }

  function Text(t: Syntax): string
    decreases t, 0
  {
    match t
    case Truth(b) => if b then "TRUE" else "FALSE"
    case Number(negative, digits) => if negative then "-" + digits else digits
    case Name(id) => id
    case Quoted(glyphs) => "\"" + GlyphsText(glyphs) + "\""
    case SetText(items) => "{" + ItemsText(items) + "}"
    case FunText(entries) => "[" + EntriesText(entries) + "]"
  }

  function ItemsText(items: ItemList): string
    decreases items, 0
  {
    match items
    case EndItems => ""
    case NoItems(pad) => pad
    case ConsItem(before, body, after, rest) =>
      before + Text(body) + after + (if rest.EndItems? then "" else "," + ItemsText(rest))
  }

  /** One entry without its outer padding. */
  function EntryText(key: string, beforeArrow: string, afterArrow: string, body: Syntax): string
    decreases body, 1
  {
    key + beforeArrow + ("|->" + (afterArrow + Text(body)))
  }

  function EntriesText(entries: EntryList): string
    decreases entries, 0
  {
    match entries
    case EndEntries => ""
    case NoEntries(pad) => pad
    case ConsEntry(before, key, beforeArrow, afterArrow, body, after, rest) =>
      before + EntryText(Text(key), beforeArrow, afterArrow, body) + after
      + (if rest.EndEntries? then "" else "," + EntriesText(rest))
  }

  function GlyphChar(g: Glyph): char
    requires GlyphOk(g)
  {
    match g
    case Raw(c) => c
    case Escape(letter) => SimpleEscape(letter).value
    case Unicode(hex) => Hex4(hex).value
  }

  function GlyphsChars(gs: seq<Glyph>): string
    requires forall i :: 0 <= i < |gs| ==> GlyphOk(gs[i])
  {
    if gs == [] then "" else [GlyphChar(gs[0])] + GlyphsChars(gs[1..])
  }

  function Meaning(t: Syntax): Value
    requires WellFormed(t)
    decreases t, 0
  {
    match t
    case Truth(b) => PyBool(b)
    case Number(negative, digits) =>
      PyInt(if negative then -(DigitsValue(digits) as int) else DigitsValue(digits))
    case Name(id) => PyStr(id)
    case Quoted(glyphs) => PyStr(GlyphsChars(glyphs))
    case SetText(items) => PyList(ItemsMeaning([], items))
    case FunText(entries) => PyDict(EntriesMeaning([], entries))
  }

  /** The listed values, in order. */
  function ItemsMeaning(acc: seq<Value>, items: ItemList): seq<Value>
    requires WellFormedItems(items)
    decreases items, 0
  {
    match items
    case EndItems => acc
    case NoItems(_) => acc
    case ConsItem(_, body, _, rest) => ItemsMeaning(acc + [Meaning(body)], rest)
  }

  /** The assignments, in order; a repeated key keeps its place and takes the later value. */
  function EntriesMeaning(acc: seq<(string, Value)>, entries: EntryList): seq<(string, Value)>
    requires WellFormedEntries(entries)
    decreases entries, 0
  {
    match entries
    case EndEntries => acc
    case NoEntries(_) => acc
    case ConsEntry(_, key, _, _, body, _, rest) => EntriesMeaning(Put(acc, KeyOf(key), Meaning(body)), rest)
  }

  /** The key a scalar stands for. */
  function KeyOf(key: Syntax): string
    requires WellFormedKey(key)
    decreases key, 1
  {
    KeyText(Meaning(key)).value
  }

  // How the splitter's state moves over a text.

  function Run(st: Scan, s: string): Scan
    decreases |s|
  {
    if s == "" then st else Run(Next(st, s[0]), s[1..])
  }

  predicate SeparatorFree(st: Scan, s: string)
    decreases |s|
  {
    s == "" || (!IsSeparator(st, s[0]) && SeparatorFree(Next(st, s[0]), s[1..]))
  }

  lemma {:induction false} RunConcat(st: Scan, s: string, t: string)
    ensures Run(st, s + t) == Run(Run(st, s), t)
    ensures SeparatorFree(st, s + t) == (SeparatorFree(st, s) && SeparatorFree(Run(st, s), t))
    decreases |s|
  {
    if s == "" {
      assert s + t == t;
    } else {
      assert (s + t)[1..] == s[1..] + t;
      RunConcat(Next(st, s[0]), s[1..], t);
    }
  }

  /** Reading `s` from `st` cuts nothing and comes back to `st`. */
  predicate Stays(st: Scan, s: string) {
    Run(st, s) == st && SeparatorFree(st, s)
  }

  lemma StaysConcat(st: Scan, s: string, t: string)
    requires Stays(st, s) && Stays(st, t)
    ensures Stays(st, s + t)
  {
    RunConcat(st, s, t);
  }

  /** Characters the splitter passes over outside quotes. */
  predicate IsPlain(c: char) {
    c != '"' && c != '{' && c != '[' && c != '}' && c != ']' && c != ','
  }

  lemma {:induction false} PlainStays(depth: int, s: string)
    requires forall i :: 0 <= i < |s| ==> IsPlain(s[i])
    ensures Stays(Scan(depth, false, false), s)
  {
    if s != "" {
      PlainStays(depth, s[1..]);
    }
  }

  lemma BracketStays(depth: int, open: char, inner: string, close: char)
    requires (open == '{' && close == '}') || (open == '[' && close == ']')
    requires Stays(Scan(depth + 1, false, false), inner)
    ensures Stays(Scan(depth, false, false), [open] + inner + [close])
  {
    var st := Scan(depth, false, false);
    var deeper := Scan(depth + 1, false, false);
    RunConcat(st, [open] + inner, [close]);
    RunConcat(st, [open], inner);
    assert Next(st, open) == deeper && Next(deeper, close) == st;
    assert Run(st, [open]) == Run(deeper, [open][1..]) == deeper;
    assert Run(deeper, [close]) == Run(st, [close][1..]) == st;
  }

  lemma CommaStays(depth: int)
    requires depth != 0
    ensures Stays(Scan(depth, false, false), ",")
  {
    var st := Scan(depth, false, false);
    assert Run(st, ",") == Run(Next(st, ','), ","[1..]);
  }

  lemma SpaceIsPlain(s: string)
    requires AllSpace(s)
    ensures forall i :: 0 <= i < |s| ==> IsPlain(s[i])
  {
  }

  // Inside quotes.

  lemma GlyphKeepsQuotes(depth: int, g: Glyph)
    requires GlyphOk(g)
    ensures Stays(Scan(depth, true, false), GlyphText(g))
  {
    var inside := Scan(depth, true, false);
    var after := Scan(depth, true, true);
    match g
    case Raw(c) =>
      assert Run(inside, [c]) == Run(Next(inside, c), [c][1..]);
    case Escape(letter) =>
      var s := ['\\', letter];
      assert s[1..] == [letter] && [letter][1..] == "";
      assert Run(inside, s) == Run(after, [letter]) == Run(inside, "");
    case Unicode(hex) =>
      var s := "\\u" + hex;
      assert s[1..] == "u" + hex && ("u" + hex)[1..] == hex;
      assert Run(inside, s) == Run(after, "u" + hex) == Run(inside, hex);
      HexKeepsQuotes(depth, hex);
  }

  lemma HexKeepsQuotes(depth: int, hex: string)
    requires |hex| == 4 && Hex4(hex).Ok?
    ensures Stays(Scan(depth, true, false), hex)
  {
    var inside := Scan(depth, true, false);
    assert forall i :: 0 <= i < 4 ==> hex[i] != '"' && hex[i] != '\\';
    assert hex == [hex[0]] + [hex[1]] + [hex[2]] + [hex[3]];
    OneKeepsQuotes(depth, hex[0]);
    OneKeepsQuotes(depth, hex[1]);
    OneKeepsQuotes(depth, hex[2]);
    OneKeepsQuotes(depth, hex[3]);
    StaysConcat(inside, [hex[0]], [hex[1]]);
    StaysConcat(inside, [hex[0]] + [hex[1]], [hex[2]]);
    StaysConcat(inside, [hex[0]] + [hex[1]] + [hex[2]], [hex[3]]);
  }

  lemma OneKeepsQuotes(depth: int, c: char)
    requires c != '"' && c != '\\'
    ensures Stays(Scan(depth, true, false), [c])
  {
    var inside := Scan(depth, true, false);
    assert Run(inside, [c]) == Run(Next(inside, c), [c][1..]);
  }

  lemma {:induction false} GlyphsKeepQuotes(depth: int, gs: seq<Glyph>)
    requires forall i :: 0 <= i < |gs| ==> GlyphOk(gs[i])
    ensures Stays(Scan(depth, true, false), GlyphsText(gs))
  {
    if gs != [] {
      GlyphKeepsQuotes(depth, gs[0]);
      GlyphsKeepQuotes(depth, gs[1..]);
      StaysConcat(Scan(depth, true, false), GlyphText(gs[0]), GlyphsText(gs[1..]));
    }
  }

  lemma QuotedStays(depth: int, gs: seq<Glyph>)
    requires forall i :: 0 <= i < |gs| ==> GlyphOk(gs[i])
    ensures Stays(Scan(depth, false, false), "\"" + GlyphsText(gs) + "\"")
  {
    var outside, inside := Scan(depth, false, false), Scan(depth, true, false);
    GlyphsKeepQuotes(depth, gs);
    RunConcat(outside, "\"" + GlyphsText(gs), "\"");
    RunConcat(outside, "\"", GlyphsText(gs));
    assert Run(outside, "\"") == Run(inside, "\""[1..]) == inside;
    assert Run(inside, "\"") == Run(outside, "\""[1..]) == outside;
  }

  // Every text is closed: at top level it is passed over as one item.

  lemma {:induction false} TextStays(depth: nat, t: Syntax)
    requires WellFormed(t)
    ensures Stays(Scan(depth, false, false), Text(t))
    decreases t
  {
    match t
    case Truth(_) => PlainStays(depth, Text(t));
    case Number(_, _) => PlainStays(depth, Text(t));
    case Name(_) => PlainStays(depth, Text(t));
    case Quoted(glyphs) => QuotedStays(depth, glyphs);
    case SetText(items) =>
      ItemsTextStays(depth + 1, items);
      BracketStays(depth, '{', ItemsText(items), '}');
    case FunText(entries) =>
      EntriesTextStays(depth + 1, entries);
      BracketStays(depth, '[', EntriesText(entries), ']');
  }

  lemma PaddedStays(depth: nat, before: string, s: string, after: string)
    requires AllSpace(before) && AllSpace(after) && Stays(Scan(depth, false, false), s)
    ensures Stays(Scan(depth, false, false), before + s + after)
  {
    var st := Scan(depth, false, false);
    SpaceIsPlain(before);
    SpaceIsPlain(after);
    PlainStays(depth, before);
    PlainStays(depth, after);
    StaysConcat(st, before, s);
    StaysConcat(st, before + s, after);
  }

  lemma ListedStays(depth: nat, first: string, rest: string)
    requires depth > 0 && Stays(Scan(depth, false, false), first) && Stays(Scan(depth, false, false), rest)
    ensures Stays(Scan(depth, false, false), first + ("," + rest))
  {
    var st := Scan(depth, false, false);
    CommaStays(depth);
    StaysConcat(st, ",", rest);
    StaysConcat(st, first, "," + rest);
  }

  lemma {:induction false} ItemsTextStays(depth: nat, items: ItemList)
    requires WellFormedItems(items) && depth > 0
    ensures Stays(Scan(depth, false, false), ItemsText(items))
    decreases items
  {
    match items
    case EndItems =>
    case NoItems(pad) =>
      SpaceIsPlain(pad);
      PlainStays(depth, pad);
    case ConsItem(before, body, after, rest) =>
      TextStays(depth, body);
      PaddedStays(depth, before, Text(body), after);
      var first := before + Text(body) + after;
      if rest.EndItems? {
        assert first + "" == first;
      } else {
        ItemsTextStays(depth, rest);
        ListedStays(depth, first, ItemsText(rest));
      }
  }

  lemma EntryStays(depth: nat, key: string, beforeArrow: string, afterArrow: string, body: Syntax)
    requires Stays(Scan(depth, false, false), key) && AllSpace(beforeArrow) && AllSpace(afterArrow)
    requires Stays(Scan(depth, false, false), Text(body))
    ensures Stays(Scan(depth, false, false), EntryText(key, beforeArrow, afterArrow, body))
  {
    var st := Scan(depth, false, false);
    SpaceIsPlain(beforeArrow);
    SpaceIsPlain(afterArrow);
    PlainStays(depth, beforeArrow);
    StaysConcat(st, key, beforeArrow);
    PlainStays(depth, "|->");
    PlainStays(depth, afterArrow);
    StaysConcat(st, afterArrow, Text(body));
    StaysConcat(st, "|->", afterArrow + Text(body));
    StaysConcat(st, key + beforeArrow, "|->" + (afterArrow + Text(body)));
  }

  lemma {:induction false} EntriesTextStays(depth: nat, entries: EntryList)
    requires WellFormedEntries(entries) && depth > 0
    ensures Stays(Scan(depth, false, false), EntriesText(entries))
    decreases entries
  {
    match entries
    case EndEntries =>
    case NoEntries(pad) =>
      SpaceIsPlain(pad);
      PlainStays(depth, pad);
    case ConsEntry(before, key, beforeArrow, afterArrow, body, after, rest) =>
      var entry := EntryText(Text(key), beforeArrow, afterArrow, body);
      TextStays(depth, key);
      TextStays(depth, body);
      EntryStays(depth, Text(key), beforeArrow, afterArrow, body);
      PaddedStays(depth, before, entry, after);
      var first := before + entry + after;
      if rest.EndEntries? {
        assert first + "" == first;
      } else {
        EntriesTextStays(depth, rest);
        ListedStays(depth, first, EntriesText(rest));
      }
  }

  // Cutting at the top-level commas.

  lemma {:induction false} PiecesOfPrefix(s: string, rest: string, st: Scan)
    requires SeparatorFree(st, s)
    ensures Pieces(s + rest, st) == Prepend(s, Pieces(rest, Run(st, s)))
    decreases |s|
  {
    if s == "" {
      assert s + rest == rest;
      PrependUnit("", Pieces(rest, st));
    } else {
      assert (s + rest)[0] == s[0] && (s + rest)[1..] == s[1..] + rest;
      PiecesOfPrefix(s[1..], rest, Next(st, s[0]));
      PrependTwice([s[0]], s[1..], Pieces(rest, Run(st, s)));
      assert [s[0]] + s[1..] == s;
    }
  }

  /** A closed text is one piece. */
  lemma PiecesOfOne(s: string)
    requires Stays(START, s)
    ensures Pieces(s, START) == [s]
  {
    PiecesOfPrefix(s, "", START);
    assert s + "" == s;
    PrependUnit(s, []);
    assert [""] + [] == [""];
  }

  /** A comma after a closed text ends its piece. */
  lemma PiecesOfMore(s: string, rest: string)
    requires Stays(START, s)
    ensures Pieces(s + ("," + rest), START) == [s] + Pieces(rest, START)
  {
    PiecesOfPrefix(s, "," + rest, START);
    assert ("," + rest)[1..] == rest;
    PrependUnit(s, Pieces(rest, START));
  }

  // Stripping.

  lemma {:induction false} StripLeftPad(pad: string, s: string)
    requires AllSpace(pad) && (s == "" || !IsSpace(s[0]))
    ensures StripLeft(pad + s) == s
    decreases |pad|
  {
    if pad == "" {
      assert pad + s == s;
    } else {
      assert (pad + s)[1..] == pad[1..] + s;
      StripLeftPad(pad[1..], s);
    }
  }

  lemma {:induction false} StripRightPad(s: string, pad: string)
    requires AllSpace(pad) && (s == "" || !IsSpace(s[|s| - 1]))
    ensures StripRight(s + pad) == s
    decreases |pad|
  {
    if pad == "" {
      assert s + pad == s;
    } else {
      var k := |pad| - 1;
      assert (s + pad)[..|s + pad| - 1] == s + pad[..k];
      StripRightPad(s, pad[..k]);
    }
  }

  /** Text with visible ends. */
  predicate Visible(s: string) {
    s != "" && !IsSpace(s[0]) && !IsSpace(s[|s| - 1])
  }

  lemma StripPadded(before: string, s: string, after: string)
    requires AllSpace(before) && AllSpace(after) && Visible(s)
    ensures Strip(before + s + after) == s
  {
    assert before + s + after == before + (s + after);
    assert (s + after)[0] == s[0];
    StripLeftPad(before, s + after);
    StripRightPad(s, after);
  }

  lemma StripVisible(s: string)
    requires Visible(s)
    ensures Strip(s) == s
  {
    StripPadded("", s, "");
    assert "" + s + "" == s;
  }

  lemma StripBlank(s: string)
    requires AllSpace(s)
    ensures Strip(s) == ""
  {
    StripLeftPad(s, "");
    assert s + "" == s;
  }

  lemma TextVisible(t: Syntax)
    requires WellFormed(t)
    ensures Visible(Text(t))
  {
  }

  // Padding around a list does not change its items.

  lemma {:induction false} StripLeftTrail(s: string, c: char)
    requires !AllSpace(s)
    ensures StripLeft(s + [c]) == StripLeft(s) + [c]
  {
    if IsSpace(s[0]) {
      assert (s + [c])[1..] == s[1..] + [c];
      StripLeftTrail(s[1..], c);
    }
  }

  lemma StripTrail(s: string, c: char)
    requires IsSpace(c)
    ensures Strip(s + [c]) == Strip(s)
  {
    if AllSpace(s) {
      StripBlank(s);
      StripBlank(s + [c]);
    } else {
      StripLeftTrail(s, c);
      var t := StripLeft(s);
      assert (t + [c])[..|t|] == t;
    }
  }

  lemma StripLead(c: char, s: string)
    requires IsSpace(c)
    ensures Strip([c] + s) == Strip(s)
  {
    assert ([c] + s)[1..] == s;
  }

  lemma ItemsOfMore(p: string, ps: seq<string>)
    requires ps != []
    ensures ItemsOf([p] + ps) == [Strip(p)] + ItemsOf(ps)
  {
    var all := [p] + ps;
    assert all[..|all| - 1] == [p] + ps[..|ps| - 1];
    assert StripAll([p] + ps[..|ps| - 1]) == [Strip(p)] + StripAll(ps[..|ps| - 1]);
  }

  lemma ItemsOfPrepend(c: char, ps: seq<string>)
    requires IsSpace(c) && ps != []
    ensures ItemsOf(Prepend([c], ps)) == ItemsOf(ps)
  {
    StripLead(c, ps[0]);
    var more := Prepend([c], ps);
    var k := |ps| - 1;
    assert more[k] == if k == 0 then [c] + ps[0] else ps[k];
    assert StripAll(more[..k]) == StripAll(ps[..k]);
  }

  lemma ItemsLead(c: char, s: string)
    requires IsSpace(c)
    ensures Items([c] + s) == Items(s)
  {
    assert ([c] + s)[1..] == s && Pieces([c] + s, START) == Prepend([c], Pieces(s, START));
    ItemsOfPrepend(c, Pieces(s, START));
  }

  /** `ps` with `c` appended to its last piece. */
  function AppendLast(ps: seq<string>, c: char): seq<string>
    requires ps != []
  {
    ps[..|ps| - 1] + [ps[|ps| - 1] + [c]]
  }

  lemma {:induction false} PiecesTrail(s: string, c: char, st: Scan)
    requires IsSpace(c)
    ensures Pieces(s + [c], st) == AppendLast(Pieces(s, st), c)
    decreases |s|
  {
    if s == "" {
      assert s + [c] == [c] && [c][1..] == "";
      assert [c] + "" == [c] && "" + [c] == [c];
      assert Prepend([c], [""]) == [[c]] && AppendLast([""], c) == [[c]];
    } else {
      assert (s + [c])[1..] == s[1..] + [c] && (s + [c])[0] == s[0];
      PiecesTrail(s[1..], c, Next(st, s[0]));
      var rest := Pieces(s[1..], Next(st, s[0]));
      if IsSeparator(st, s[0]) {
        assert [""] + AppendLast(rest, c) == AppendLast([""] + rest, c);
      } else {
        AppendPrepend([s[0]], rest, c);
      }
    }
  }

  lemma AppendPrepend(p: string, ps: seq<string>, c: char)
    requires ps != []
    ensures Prepend(p, AppendLast(ps, c)) == AppendLast(Prepend(p, ps), c)
  {
    if |ps| == 1 {
      assert p + (ps[0] + [c]) == (p + ps[0]) + [c];
    }
  }

  lemma ItemsTrail(s: string, c: char)
    requires IsSpace(c)
    ensures Items(s + [c]) == Items(s)
  {
    var ps := Pieces(s, START);
    var k := |ps| - 1;
    PiecesTrail(s, c, START);
    StripTrail(ps[k], c);
    assert AppendLast(ps, c)[..k] == ps[..k] && AppendLast(ps, c)[k] == ps[k] + [c];
  }

  lemma {:induction false} ItemsStripLeft(s: string)
    ensures Items(StripLeft(s)) == Items(s)
  {
    if s != "" && IsSpace(s[0]) {
      var rest := s[1..];
      assert StripLeft(s) == StripLeft(rest) && s == [s[0]] + rest;
      ItemsStripLeft(rest);
      ItemsLead(s[0], rest);
    }
  }

  lemma {:induction false} ItemsStripRight(s: string)
    ensures Items(StripRight(s)) == Items(s)
  {
    var k := |s| - 1;
    if s != "" && IsSpace(s[k]) {
      var front := s[..k];
      assert StripRight(s) == StripRight(front) && s == front + [s[k]];
      ItemsStripRight(front);
      ItemsTrail(front, s[k]);
    }
  }

  lemma ItemsStrip(s: string)
    ensures Items(Strip(s)) == Items(s)
  {
    ItemsStripLeft(s);
    ItemsStripRight(StripLeft(s));
  }

  // The splitter recovers the printed list.

  function ItemTexts(items: ItemList): seq<string> {
    match items
    case EndItems => []
    case NoItems(_) => []
    case ConsItem(_, body, _, rest) => [Text(body)] + ItemTexts(rest)
  }

  function EntryTexts(entries: EntryList): seq<string> {
    match entries
    case EndEntries => []
    case NoEntries(_) => []
    case ConsEntry(_, key, beforeArrow, afterArrow, body, _, rest) =>
      [EntryText(Text(key), beforeArrow, afterArrow, body)] + EntryTexts(rest)
  }

  lemma ItemsOfOne(before: string, s: string, after: string)
    requires AllSpace(before) && AllSpace(after) && Visible(s) && Stays(START, s)
    ensures Items(before + s + after) == [s]
  {
    PaddedStays(0, before, s, after);
    PiecesOfOne(before + s + after);
    StripPadded(before, s, after);
  }

  lemma ItemsOfFirst(before: string, s: string, after: string, rest: string)
    requires AllSpace(before) && AllSpace(after) && Visible(s) && Stays(START, s)
    ensures Items(before + s + after + ("," + rest)) == [s] + Items(rest)
  {
    var first := before + s + after;
    PaddedStays(0, before, s, after);
    PiecesOfMore(first, rest);
    ItemsOfMore(first, Pieces(rest, START));
    StripPadded(before, s, after);
  }

  /** Every printed element, whatever commas, braces or arrows occur inside it, is one item. */
  lemma {:induction false} SplitRecoversItems(items: ItemList)
    requires WellFormedItems(items)
    ensures Items(ItemsText(items)) == ItemTexts(items)
  {
    match items
    case EndItems => BlankHasNoItems("");
    case NoItems(pad) => BlankHasNoItems(pad);
    case ConsItem(before, body, after, rest) =>
      TextStays(0, body);
      TextVisible(body);
      if rest.EndItems? {
        ItemsOfOne(before, Text(body), after);
        assert before + Text(body) + after + "" == before + Text(body) + after;
        assert ItemTexts(rest) == [];
      } else {
        ItemsOfFirst(before, Text(body), after, ItemsText(rest));
        SplitRecoversItems(rest);
      }
  }

  lemma BlankHasNoItems(pad: string)
    requires AllSpace(pad)
    ensures Items(pad) == []
  {
    ItemsStrip(pad);
    StripBlank(pad);
    EmptyHasNoItems();
  }

  lemma EntryVisible(key: string, beforeArrow: string, afterArrow: string, body: Syntax)
    requires Visible(key) && WellFormed(body)
    ensures Visible(EntryText(key, beforeArrow, afterArrow, body))
  {
    TextVisible(body);
    var s := EntryText(key, beforeArrow, afterArrow, body);
    assert s[0] == key[0] && s[|s| - 1] == Text(body)[|Text(body)| - 1];
  }

  lemma {:induction false} SplitRecoversEntries(entries: EntryList)
    requires WellFormedEntries(entries)
    ensures Items(EntriesText(entries)) == EntryTexts(entries)
  {
    match entries
    case EndEntries => BlankHasNoItems("");
    case NoEntries(pad) => BlankHasNoItems(pad);
    case ConsEntry(before, key, beforeArrow, afterArrow, body, after, rest) =>
      var entry := EntryText(Text(key), beforeArrow, afterArrow, body);
      TextStays(0, key);
      TextStays(0, body);
      TextVisible(key);
      EntryStays(0, Text(key), beforeArrow, afterArrow, body);
      EntryVisible(Text(key), beforeArrow, afterArrow, body);
      if rest.EndEntries? {
        ItemsOfOne(before, entry, after);
        assert before + entry + after + "" == before + entry + after;
        assert EntryTexts(rest) == [];
      } else {
        ItemsOfFirst(before, entry, after, EntriesText(rest));
        SplitRecoversEntries(rest);
      }
  }

  // Strings.

  lemma {:induction false} JsonRecoversGlyphs(gs: seq<Glyph>)
    requires forall i :: 0 <= i < |gs| ==> GlyphOk(gs[i])
    ensures JsonBody(GlyphsText(gs) + "\"") == Ok(GlyphsChars(gs))
  {
    if gs == [] {
      assert GlyphsText(gs) + "\"" == "\"";
    } else {
      JsonRecoversGlyphs(gs[1..]);
      JsonOneGlyph(gs[0], GlyphsText(gs[1..]) + "\"", GlyphsChars(gs[1..]));
      assert GlyphsText(gs) + "\"" == GlyphText(gs[0]) + (GlyphsText(gs[1..]) + "\"");
    }
  }

  lemma JsonOneGlyph(g: Glyph, rest: string, chars: string)
    requires GlyphOk(g) && JsonBody(rest) == Ok(chars)
    ensures JsonBody(GlyphText(g) + rest) == Ok([GlyphChar(g)] + chars)
  {
    var s := GlyphText(g) + rest;
    match g
    case Raw(c) => assert s[1..] == rest;
    case Escape(letter) => assert s[2..] == rest && s[1] == letter;
    case Unicode(hex) => assert s[2..6] == hex && s[6..] == rest;
  }

  // The parser on each kind of text.

  lemma ParseOfStripped(value: string)
    requires Visible(Strip(value))
    ensures ParseValue(value) == ParseValue(Strip(value))
  {
    StripVisible(Strip(value));
  }

  lemma ScalarText(s: string)
    requires Visible(s) && s[0] != '{' && s[0] != '['
    ensures ParseValue(s) == ParseScalar(s)
  {
    StripVisible(s);
  }

  lemma ParseName(id: string)
    requires IsKey(id)
    ensures ParseValue(id) == Ok(PyStr(id))
  {
    ScalarText(id);
  }

  lemma ParseNumber(negative: bool, digits: string)
    requires digits != "" && AllDigits(digits)
    ensures ParseValue(Text(Number(negative, digits))) == Ok(Meaning(Number(negative, digits)))
  {
    var s := Text(Number(negative, digits));
    ScalarText(s);
    if negative {
      assert s[1..] == digits;
    }
    assert IsInteger(s);
  }

  lemma ParseQuoted(gs: seq<Glyph>)
    requires WellFormed(Quoted(gs))
    ensures ParseValue(Text(Quoted(gs))) == Ok(Meaning(Quoted(gs)))
  {
    var s := Text(Quoted(gs));
    ScalarText(s);
    assert s[1..] == GlyphsText(gs) + "\"";
    JsonRecoversGlyphs(gs);
  }

  lemma ParseBraces(inner: string)
    ensures ParseValue("{" + inner + "}") == ParseBraced(Strip(inner))
  {
    var s := "{" + inner + "}";
    StripVisible(s);
    assert s[1..|s| - 1] == inner;
  }

  lemma ParseBrackets(inner: string)
    ensures ParseValue("[" + inner + "]") == ParseBracketed(Strip(inner))
  {
    var s := "[" + inner + "]";
    StripVisible(s);
    assert s[1..|s| - 1] == inner;
  }

  lemma NameIsKey(id: string)
    requires IsKey(id)
    ensures WellFormedKey(Name(id)) && KeyOf(Name(id)) == id
  {
    assert forall i :: 0 <= i < |id| ==> id[i] != '|';
  }

  /** The first arrow after a text without one is found. */
  lemma {:induction false} FindArrowAt(p: string, rest: string)
    requires NoArrow(p)
    ensures FindArrow(p + ("|->" + rest)) == |p|
  {
    var s := p + ("|->" + rest);
    if p == "" {
      assert s == "|->" + rest;
    } else {
      NoArrowInFront(p, rest);
      assert s[1..] == p[1..] + ("|->" + rest);
      FindArrowAt(p[1..], rest);
    }
  }

  lemma NoArrowInFront(p: string, rest: string)
    requires p != "" && NoArrow(p)
    ensures var s := p + ("|->" + rest);
            !(s[0] == '|' && s[1] == '-' && s[2] == '>')
    ensures NoArrow(p[1..])
  {
    var s := p + ("|->" + rest);
    if |p| >= 3 {
      assert s[0] == p[0] && s[1] == p[1] && s[2] == p[2];
    } else {
      assert s[|p|] == '|';
    }
    forall i | 0 <= i && i + 3 <= |p[1..]| ensures !(p[1..][i] == '|' && p[1..][i + 1] == '-' && p[1..][i + 2] == '>') {
      assert !(p[i + 1] == '|' && p[i + 1 + 1] == '-' && p[i + 1 + 2] == '>');
    }
  }

  lemma SpaceHasNoArrow(p: string, pad: string)
    requires NoArrow(p) && AllSpace(pad)
    ensures NoArrow(p + pad)
  {
    var s := p + pad;
    forall i | 0 <= i && i + 3 <= |s| ensures !(s[i] == '|' && s[i + 1] == '-' && s[i + 2] == '>') {
      assert i + 3 <= |p| ==> !(p[i] == '|' && p[i + 1] == '-' && p[i + 2] == '>');
    }
  }

  lemma StripAfter(s: string, after: string)
    requires AllSpace(after) && Visible(s)
    ensures Strip(s + after) == s
  {
    StripPadded("", s, after);
    assert "" + s + after == s + after;
  }

  lemma StripBefore(before: string, s: string)
    requires AllSpace(before) && Visible(s)
    ensures Strip(before + s) == s
  {
    StripPadded(before, s, "");
    assert before + s + "" == before + s;
  }

  lemma EntryParts(key: string, beforeArrow: string, afterArrow: string, text: string)
    requires Visible(key) && NoArrow(key) && AllSpace(beforeArrow) && AllSpace(afterArrow) && Visible(text)
    ensures var item := key + beforeArrow + ("|->" + (afterArrow + text));
            var at := FindArrow(item);
            at + 3 <= |item| && Strip(item[..at]) == key && Strip(item[at + 3..]) == text
  {
    var p, q := key + beforeArrow, afterArrow + text;
    var item := p + ("|->" + q);
    SpaceHasNoArrow(key, beforeArrow);
    FindArrowAt(p, q);
    assert item[..|p|] == p && item[|p| + 3..] == q;
    StripAfter(key, beforeArrow);
    StripBefore(afterArrow, text);
  }

  lemma ParseEntryTo(item: string, key: string, text: string)
    requires var at := FindArrow(item);
             at + 3 <= |item| && Strip(item[..at]) == key && Strip(item[at + 3..]) == text
    ensures ParseEntry(item) == EntryOf(ParseValue(key), ParseValue(text))
  {
  }

  lemma EntryOfOk(key: Value, v: Value)
    ensures KeyText(key).Ok? ==> EntryOf(Ok(key), Ok(v)) == Ok((KeyText(key).value, v))
  {
  }

  lemma ParseEntryText(key: string, k: Value, beforeArrow: string, afterArrow: string, text: string, v: Value)
    requires Visible(key) && NoArrow(key) && AllSpace(beforeArrow) && AllSpace(afterArrow) && Visible(text)
    requires ParseValue(key) == Ok(k) && ParseValue(text) == Ok(v) && KeyText(k).Ok?
    ensures ParseEntry(key + beforeArrow + ("|->" + (afterArrow + text))) == Ok((KeyText(k).value, v))
  {
    EntryParts(key, beforeArrow, afterArrow, text);
    ParseEntryTo(key + beforeArrow + ("|->" + (afterArrow + text)), key, text);
    EntryOfOk(k, v);
  }

  lemma KeyIsText(key: Syntax)
    requires WellFormedKey(key)
    ensures KeyText(Meaning(key)) == Ok(KeyOf(key)) && NoArrow(Text(key))
  {
  }

  lemma ParseOneEntry(key: Syntax, beforeArrow: string, afterArrow: string, body: Syntax)
    requires WellFormedKey(key) && AllSpace(beforeArrow) && AllSpace(afterArrow) && WellFormed(body)
    requires ParseValue(Text(key)) == Ok(Meaning(key)) && ParseValue(Text(body)) == Ok(Meaning(body))
    ensures ParseEntry(EntryText(Text(key), beforeArrow, afterArrow, body)) == Ok((KeyOf(key), Meaning(body)))
  {
    TextVisible(key);
    TextVisible(body);
    KeyIsText(key);
    ParseEntryText(Text(key), Meaning(key), beforeArrow, afterArrow, Text(body), Meaning(body));
  }

  lemma ParseBracketedTo(inner: string, texts: seq<string>, entries: seq<(string, Value)>)
    requires Items(Strip(inner)) == texts
    requires forall i :: 0 <= i < |texts| ==> |texts[i]| <= |Strip(inner)|
    requires ParseEntries([], texts, |Strip(inner)|) == Ok(entries)
    ensures ParseValue("[" + inner + "]") == Ok(PyDict(entries))
  {
    ParseBrackets(inner);
  }

  lemma ParseBracedTo(core: string, texts: seq<string>, values: seq<Value>)
    requires core != "" && Items(core) == texts
    requires forall i :: 0 <= i < |texts| ==> |texts[i]| <= |core|
    requires ParseItems([], texts, |core|) == Ok(values)
    ensures ParseBraced(core) == Ok(PyList(values))
  {
  }

  lemma CoreItems(items: ItemList)
    requires WellFormedItems(items) && items.ConsItem?
    ensures var core := Strip(ItemsText(items));
            && core != "" && Items(core) == ItemTexts(items)
            && forall i :: 0 <= i < |ItemTexts(items)| ==> |ItemTexts(items)[i]| <= |core|
  {
    ItemsStrip(ItemsText(items));
    SplitRecoversItems(items);
    EmptyHasNoItems();
  }

  lemma EmptyHasNoItems()
    ensures Items("") == []
  {
    assert Pieces("", START) == [""];
  }

  lemma CoreEntries(entries: EntryList)
    requires WellFormedEntries(entries)
    ensures var core := Strip(EntriesText(entries));
            && Items(core) == EntryTexts(entries)
            && forall i :: 0 <= i < |EntryTexts(entries)| ==> |EntryTexts(entries)[i]| <= |core|
  {
    ItemsStrip(EntriesText(entries));
    SplitRecoversEntries(entries);
  }

  // The theorem.

  lemma {:induction false} ParseText(t: Syntax)
    requires WellFormed(t)
    ensures ParseValue(Text(t)) == Ok(Meaning(t))
    decreases t, 1
  {
    match t
    case Truth(b) => ScalarText(Text(t));
    case Number(negative, digits) => ParseNumber(negative, digits);
    case Name(id) => ParseName(id);
    case Quoted(glyphs) => ParseQuoted(glyphs);
    case SetText(items) => ParseSet(items);
    case FunText(entries) => ParseFun(entries);
  }

  lemma {:induction false} ParseSet(items: ItemList)
    requires WellFormedItems(items)
    ensures ParseValue(Text(SetText(items))) == Ok(Meaning(SetText(items)))
    decreases items, 1
  {
    var core := Strip(ItemsText(items));
    if !items.ConsItem? {
      StripBlank(ItemsText(items));
    } else {
      CoreItems(items);
      ParseItemList([], items, |core|);
      ParseBracedTo(core, ItemTexts(items), ItemsMeaning([], items));
    }
    ParseBraces(ItemsText(items));
  }

  lemma {:induction false} ParseItemList(acc: seq<Value>, items: ItemList, bound: nat)
    requires WellFormedItems(items)
    requires forall i :: 0 <= i < |ItemTexts(items)| ==> |ItemTexts(items)[i]| <= bound
    ensures ParseItems(acc, ItemTexts(items), bound) == Ok(ItemsMeaning(acc, items))
    decreases items, 0
  {
    match items
    case EndItems =>
    case NoItems(_) =>
    case ConsItem(_, body, _, rest) =>
      var texts := ItemTexts(items);
      assert texts[0] == Text(body) && texts[1..] == ItemTexts(rest);
      ParseText(body);
      assert forall i :: 0 <= i < |ItemTexts(rest)| ==> ItemTexts(rest)[i] == texts[i + 1];
      ParseItemList(acc + [Meaning(body)], rest, bound);
  }

  lemma {:induction false} ParseFun(entries: EntryList)
    requires WellFormedEntries(entries)
    ensures ParseValue("[" + EntriesText(entries) + "]") == Ok(PyDict(EntriesMeaning([], entries)))
    decreases entries, 1
  {
    CoreEntries(entries);
    ParseEntryList([], entries, |Strip(EntriesText(entries))|);
    ParseBracketedTo(EntriesText(entries), EntryTexts(entries), EntriesMeaning([], entries));
  }

  lemma {:induction false} ParseEntryList(acc: seq<(string, Value)>, entries: EntryList, bound: nat)
    requires WellFormedEntries(entries)
    requires forall i :: 0 <= i < |EntryTexts(entries)| ==> |EntryTexts(entries)[i]| <= bound
    ensures ParseEntries(acc, EntryTexts(entries), bound) == Ok(EntriesMeaning(acc, entries))
    decreases entries, 0
  {
    match entries
    case EndEntries =>
    case NoEntries(_) =>
    case ConsEntry(_, key, beforeArrow, afterArrow, body, _, rest) =>
      var texts := EntryTexts(entries);
      assert texts[0] == EntryText(Text(key), beforeArrow, afterArrow, body) && texts[1..] == EntryTexts(rest);
      ParseText(key);
      ParseText(body);
      ParseOneEntry(key, beforeArrow, afterArrow, body);
      assert forall i :: 0 <= i < |EntryTexts(rest)| ==> EntryTexts(rest)[i] == texts[i + 1];
      ParseEntryList(Put(acc, KeyOf(key), Meaning(body)), rest, bound);
  }

  /** Whatever the layout and the escapes, the parser recovers the meaning. */
  lemma ParseRecoversMeaning(before: string, t: Syntax, after: string)
    requires WellFormed(t) && AllSpace(before) && AllSpace(after)
    ensures ParseValue(before + Text(t) + after) == Ok(Meaning(t))
  {
    TextVisible(t);
    StripPadded(before, Text(t), after);
    ParseOfStripped(before + Text(t) + after);
    ParseText(t);
  }
}
