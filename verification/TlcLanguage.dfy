/** Exactly which texts the parser accepts: those of the trees of `TlcSyntax`, with blanks
    around them, and nothing else. */
module TlcLanguage {
  import opened TlcParser
  import opened TlcSyntax

  /** `s` is the text of `t` between blanks. */
  predicate IsTextOf(s: string, before: string, t: Syntax, after: string) {
    AllSpace(before) && AllSpace(after) && WellFormed(t) && s == before + Text(t) + after
  }

  // What stripping removes.

  lemma {:induction false} StripLeftSplits(s: string) returns (pad: string)
    ensures AllSpace(pad) && s == pad + StripLeft(s)
  {
    if s != "" && IsSpace(s[0]) {
      var rest := StripLeftSplits(s[1..]);
      pad := [s[0]] + rest;
      assert s == [s[0]] + s[1..];
    } else {
      pad := "";
    }
  }

  lemma {:induction false} StripRightSplits(s: string) returns (pad: string)
    ensures AllSpace(pad) && s == StripRight(s) + pad
  {
    var k := |s| - 1;
    if s != "" && IsSpace(s[k]) {
      var rest := StripRightSplits(s[..k]);
      pad := rest + [s[k]];
      assert s == s[..k] + [s[k]];
    } else {
      pad := "";
    }
  }

  lemma StripSplits(s: string) returns (before: string, after: string)
    ensures AllSpace(before) && AllSpace(after) && s == before + Strip(s) + after
  {
    before := StripLeftSplits(s);
    after := StripRightSplits(StripLeft(s));
    assert before + (Strip(s) + after) == before + Strip(s) + after;
  }

  /** A tree whose text lies inside stripped text, seen from the whole. */
  lemma Widen(s: string, core: string, before: string, after: string, b: string, t: Syntax, a: string)
    requires s == before + core + after && AllSpace(before) && AllSpace(after) && IsTextOf(core, b, t, a)
    ensures IsTextOf(s, before + b, t, a + after)
  {
    assert before + (b + Text(t) + a) + after == (before + b) + Text(t) + (a + after);
  }

  // Scalars.

  /** The strings that decode are exactly the spellings of glyphs. */
  lemma {:induction false} DecodedAreGlyphs(s: string) returns (gs: seq<Glyph>)
    requires JsonBody(s).Ok?
    ensures forall i :: 0 <= i < |gs| ==> GlyphOk(gs[i])
    ensures s == GlyphsText(gs) + "\"" && JsonBody(s).value == GlyphsChars(gs)
    decreases |s|
  {
    if s[0] == '"' {
      gs := [];
      assert s == "" + "\"";
    } else {
      var g, n := FirstGlyph(s);
      var rest := DecodedAreGlyphs(s[n..]);
      gs := [g] + rest;
      assert gs[1..] == rest;
      assert s == s[..n] + s[n..];
      assert GlyphText(g) + (GlyphsText(rest) + "\"") == GlyphsText(gs) + "\"";
    }
  }

  lemma FirstGlyph(s: string) returns (g: Glyph, n: nat)
    requires JsonBody(s).Ok? && s[0] != '"'
    ensures 0 < n <= |s| && GlyphOk(g) && s[..n] == GlyphText(g)
    ensures JsonBody(s[n..]).Ok? && JsonBody(s).value == [GlyphChar(g)] + JsonBody(s[n..]).value
  {
    if s[0] != '\\' {
      g, n := Raw(s[0]), 1;
    } else if |s| >= 6 && s[1] == 'u' {
      g, n := Unicode(s[2..6]), 6;
      assert s[..6] == "\\u" + s[2..6];
    } else {
      g, n := Escape(s[1]), 2;
    }
  }

  lemma ScalarIsText(v: string) returns (t: Syntax)
    requires ParseScalar(v).Ok?
    ensures WellFormed(t) && v == Text(t) && ParseScalar(v).value == Meaning(t)
  {
    if v == "TRUE" {
      t := Truth(true);
    } else if v == "FALSE" {
      t := Truth(false);
    } else if IsInteger(v) {
      var negative := v[0] == '-';
      t := Number(negative, if negative then v[1..] else v);
      assert negative ==> v == "-" + v[1..];
    } else if v[0] == '"' {
      var gs := DecodedAreGlyphs(v[1..]);
      t := Quoted(gs);
      assert v == "\"" + v[1..];
      assert "\"" + (GlyphsText(gs) + "\"") == "\"" + GlyphsText(gs) + "\"";
    } else {
      t := Name(v);
    }
  }

  // Lists.

  /** The pieces put together again. */
  function Joined(ps: seq<string>): string
    requires ps != []
  {
    if |ps| == 1 then ps[0] else ps[0] + ("," + Joined(ps[1..]))
  }

  lemma {:induction false} PiecesJoin(s: string, st: Scan)
    ensures Joined(Pieces(s, st)) == s
    decreases |s|
  {
    if s != "" {
      var rest := Pieces(s[1..], Next(st, s[0]));
      PiecesJoin(s[1..], Next(st, s[0]));
      assert s == [s[0]] + s[1..];
      if IsSeparator(st, s[0]) {
        assert ([""] + rest)[1..] == rest;
        assert "" + ("," + Joined(rest)) == "," + Joined(rest);
      } else {
        JoinPrepend([s[0]], rest);
      }
    }
  }

  lemma JoinPrepend(p: string, ps: seq<string>)
    requires ps != []
    ensures Joined(Prepend(p, ps)) == p + Joined(ps)
  {
    assert Prepend(p, ps)[1..] == ps[1..];
    if |ps| > 1 {
      assert (p + ps[0]) + ("," + Joined(ps[1..])) == p + (ps[0] + ("," + Joined(ps[1..])));
    }
  }

  lemma BlankIsSpace(s: string)
    requires Strip(s) == ""
    ensures AllSpace(s)
  {
    var before, after := StripSplits(s);
    assert s == before + after;
  }

  lemma ItemsOfLast(p: string)
    ensures ItemsOf([p]) == if Strip(p) == "" then [] else [Strip(p)]
  {
    assert [p][..0] == [];
  }

  lemma ParseFirstItem(acc: seq<Value>, items: seq<string>, bound: nat)
    requires items != [] && forall i :: 0 <= i < |items| ==> |items[i]| <= bound
    requires ParseItems(acc, items, bound).Ok?
    ensures ParseValue(items[0]).Ok?
    ensures ParseItems(acc, items, bound) == ParseItems(acc + [ParseValue(items[0]).value], items[1..], bound)
  {
  }

  lemma ParseFirstEntry(acc: seq<(string, Value)>, items: seq<string>, bound: nat)
    requires items != [] && forall i :: 0 <= i < |items| ==> |items[i]| <= bound
    requires ParseEntries(acc, items, bound).Ok?
    ensures ParseEntry(items[0]).Ok?
    ensures var entry := ParseEntry(items[0]).value;
            ParseEntries(acc, items, bound) == ParseEntries(Put(acc, entry.0, entry.1), items[1..], bound)
  {
  }

  /** One more item in front. */
  lemma ConsItemText(p: string, before: string, t: Syntax, after: string, rest: ItemList, tail: string)
    requires IsTextOf(p, before, t, after) && WellFormedItems(rest)
    requires if rest.EndItems? then tail == "" else tail == "," + ItemsText(rest)
    ensures WellFormedItems(ConsItem(before, t, after, rest))
    ensures ItemsText(ConsItem(before, t, after, rest)) == p + tail
  {
  }

  // The converse of `ParseText`.

  /** Every accepted text is the text of a tree, and its value is what the tree means. */
  lemma {:induction false} AcceptedIsText(s: string) returns (before: string, t: Syntax, after: string)
    requires ParseValue(s).Ok?
    ensures IsTextOf(s, before, t, after) && ParseValue(s).value == Meaning(t)
    decreases |s|, 4
  {
    var v := Strip(s);
    before, after := StripSplits(s);
    if IsEnclosed(v, '{', '}') {
      t := AcceptedSet(v);
    } else if IsEnclosed(v, '[', ']') {
      t := AcceptedFun(v);
    } else {
      t := ScalarIsText(v);
    }
  }

  lemma {:induction false} AcceptedSet(v: string) returns (t: Syntax)
    requires IsEnclosed(v, '{', '}') && ParseBraced(Strip(v[1..|v| - 1])).Ok?
    ensures WellFormed(t) && v == Text(t) && ParseBraced(Strip(v[1..|v| - 1])).value == Meaning(t)
    decreases |v|, 3
  {
    var inner := v[1..|v| - 1];
    var core := Strip(inner);
    assert v == "{" + inner + "}";
    if core == "" {
      BlankIsSpace(inner);
      t := SetText(NoItems(inner));
    } else {
      ItemsStrip(inner);
      var items := AcceptedItems([], Pieces(inner, START), |core|);
      PiecesJoin(inner, START);
      t := SetText(items);
    }
  }

  lemma {:induction false} AcceptedItems(acc: seq<Value>, ps: seq<string>, bound: nat) returns (items: ItemList)
    requires ps != [] && forall i :: 0 <= i < |ItemsOf(ps)| ==> |ItemsOf(ps)[i]| <= bound
    requires ParseItems(acc, ItemsOf(ps), bound).Ok?
    ensures WellFormedItems(items) && !items.EndItems? && ItemsText(items) == Joined(ps)
    ensures ParseItems(acc, ItemsOf(ps), bound).value == ItemsMeaning(acc, items)
    decreases bound, 6, |ps|
  {
    if |ps| == 1 && Strip(ps[0]) == "" {
      ItemsOfLast(ps[0]);
      assert ps == [ps[0]];
      BlankIsSpace(ps[0]);
      items := NoItems(ps[0]);
    } else {
      var rest: ItemList := EndItems;
      FirstOf(ps);
      ParseFirstItem(acc, ItemsOf(ps), bound);
      var before, t, after := AcceptedPiece(ps[0], bound);
      var tail := "";
      if |ps| > 1 {
        rest := AcceptedItems(acc + [Meaning(t)], ps[1..], bound);
        tail := "," + ItemsText(rest);
      }
      ConsItemText(ps[0], before, t, after, rest, tail);
      items := ConsItem(before, t, after, rest);
      assert |ps| == 1 ==> ps[0] + "" == ps[0];
    }
  }

  /** The first item of a list that is not just a blank. */
  lemma FirstOf(ps: seq<string>)
    requires ps != [] && !(|ps| == 1 && Strip(ps[0]) == "")
    ensures ItemsOf(ps) != [] && ItemsOf(ps)[0] == Strip(ps[0])
    ensures ItemsOf(ps)[1..] == if |ps| == 1 then [] else ItemsOf(ps[1..])
  {
    if |ps| == 1 {
      assert ps == [ps[0]];
      ItemsOfLast(ps[0]);
    } else {
      assert ps == [ps[0]] + ps[1..];
      ItemsOfMore(ps[0], ps[1..]);
    }
  }

  lemma {:induction false} AcceptedPiece(p: string, bound: nat) returns (before: string, t: Syntax, after: string)
    requires |Strip(p)| <= bound && ParseValue(Strip(p)).Ok?
    ensures IsTextOf(p, before, t, after) && ParseValue(Strip(p)).value == Meaning(t)
    decreases bound, 5, 1
  {
    var l, r := StripSplits(p);
    var b, a;
    b, t, a := AcceptedIsText(Strip(p));
    Widen(p, Strip(p), l, r, b, t, a);
    before, after := l + b, a + r;
  }

  lemma {:induction false} AcceptedFun(v: string) returns (t: Syntax)
    requires IsEnclosed(v, '[', ']') && ParseBracketed(Strip(v[1..|v| - 1])).Ok?
    ensures WellFormed(t) && v == Text(t) && ParseBracketed(Strip(v[1..|v| - 1])).value == Meaning(t)
    decreases |v|, 3
  {
    var inner := v[1..|v| - 1];
    var core := Strip(inner);
    assert v == "[" + inner + "]";
    ItemsStrip(inner);
    var entries := AcceptedEntries([], Pieces(inner, START), |core|);
    PiecesJoin(inner, START);
    t := FunText(entries);
  }

  /** An entry as it was found, piece by piece. */
  ghost predicate IsEntryOf(p: string, before: string, key: Syntax, beforeArrow: string, afterArrow: string, body: Syntax, after: string) {
    && AllSpace(before) && AllSpace(beforeArrow) && AllSpace(afterArrow) && AllSpace(after)
    && WellFormedKey(key) && WellFormed(body)
    && p == before + EntryText(Text(key), beforeArrow, afterArrow, body) + after
  }

  lemma ConsEntryText(p: string, before: string, key: Syntax, beforeArrow: string, afterArrow: string, body: Syntax,
                      after: string, rest: EntryList, tail: string)
    requires IsEntryOf(p, before, key, beforeArrow, afterArrow, body, after) && WellFormedEntries(rest)
    requires if rest.EndEntries? then tail == "" else tail == "," + EntriesText(rest)
    ensures WellFormedEntries(ConsEntry(before, key, beforeArrow, afterArrow, body, after, rest))
    ensures EntriesText(ConsEntry(before, key, beforeArrow, afterArrow, body, after, rest)) == p + tail
  {
  }

  lemma {:induction false} AcceptedEntries(acc: seq<(string, Value)>, ps: seq<string>, bound: nat) returns (entries: EntryList)
    requires ps != [] && forall i :: 0 <= i < |ItemsOf(ps)| ==> |ItemsOf(ps)[i]| <= bound
    requires ParseEntries(acc, ItemsOf(ps), bound).Ok?
    ensures WellFormedEntries(entries) && !entries.EndEntries? && EntriesText(entries) == Joined(ps)
    ensures ParseEntries(acc, ItemsOf(ps), bound).value == EntriesMeaning(acc, entries)
    decreases bound, 6, |ps|
  {
    if |ps| == 1 && Strip(ps[0]) == "" {
      ItemsOfLast(ps[0]);
      assert ps == [ps[0]];
      BlankIsSpace(ps[0]);
      entries := NoEntries(ps[0]);
    } else {
      var rest: EntryList := EndEntries;
      FirstOf(ps);
      ParseFirstEntry(acc, ItemsOf(ps), bound);
      var before, key, beforeArrow, afterArrow, body, after := AcceptedEntry(ps[0], bound);
      var tail := "";
      if |ps| > 1 {
        rest := AcceptedEntries(Put(acc, KeyOf(key), Meaning(body)), ps[1..], bound);
        tail := "," + EntriesText(rest);
      }
      ConsEntryText(ps[0], before, key, beforeArrow, afterArrow, body, after, rest, tail);
      entries := ConsEntry(before, key, beforeArrow, afterArrow, body, after, rest);
      assert |ps| == 1 ==> ps[0] + "" == ps[0];
    }
  }

  lemma {:induction false} AcceptedEntry(p: string, bound: nat)
    returns (before: string, key: Syntax, beforeArrow: string, afterArrow: string, body: Syntax, after: string)
    requires |Strip(p)| <= bound && ParseEntry(Strip(p)).Ok?
    ensures IsEntryOf(p, before, key, beforeArrow, afterArrow, body, after)
    ensures ParseEntry(Strip(p)).value == (KeyOf(key), Meaning(body))
    decreases bound, 5, 2
  {
    var l, r := StripSplits(p);
    var left, right := EntryHalves(Strip(p));
    var b, ka, vb, a;
    b, key, ka := AcceptedPiece(left, bound - 3);
    vb, body, a := AcceptedPiece(right, bound - 3);
    ArrowlessKey(left, b, key, ka);
    before, beforeArrow, afterArrow, after := l + b, ka, vb, a + r;
    Assembled(p, l, left, right, r, b, key, ka, vb, body, a);
  }

  lemma Assembled(p: string, l: string, left: string, right: string, r: string,
                  b: string, key: Syntax, ka: string, vb: string, body: Syntax, a: string)
    requires AllSpace(l) && AllSpace(r) && p == l + (left + ("|->" + right)) + r
    requires IsTextOf(left, b, key, ka) && IsTextOf(right, vb, body, a) && WellFormedKey(key)
    ensures IsEntryOf(p, l + b, key, ka, vb, body, a + r)
  {
    Reassemble(p, l, left, right, r, b, Text(key), ka, vb, Text(body), a);
  }

  /** What an accepted entry is made of. */
  lemma EntryHalves(item: string) returns (left: string, right: string)
    requires ParseEntry(item).Ok?
    ensures item == left + ("|->" + right) && NoArrow(left) && |Strip(left)| <= |item| - 3 && |Strip(right)| <= |item| - 3
    ensures ParseValue(Strip(left)).Ok? && ParseValue(Strip(right)).Ok? && KeyText(ParseValue(Strip(left)).value).Ok?
    ensures ParseEntry(item).value == (KeyText(ParseValue(Strip(left)).value).value, ParseValue(Strip(right)).value)
  {
    var at := FindArrow(item);
    left, right := item[..at], item[at + 3..];
    ArrowSplits(item, at);
    NoArrowBefore(item);
    HalvesOf(ParseValue(Strip(left)), ParseValue(Strip(right)));
  }

  lemma ArrowSplits(item: string, at: nat)
    requires at + 3 <= |item| && item[at] == '|' && item[at + 1] == '-' && item[at + 2] == '>'
    ensures item == item[..at] + ("|->" + item[at + 3..])
  {
    assert item[at..at + 3] == "|->";
  }

  lemma HalvesOf(key: Result<Value>, value: Result<Value>)
    ensures EntryOf(key, value).Ok? ==>
              && key.Ok? && value.Ok? && KeyText(key.value).Ok?
              && EntryOf(key, value).value == (KeyText(key.value).value, value.value)
  {
  }

  lemma {:induction false} NoArrowBefore(s: string)
    ensures forall j :: 0 <= j < FindArrow(s) && j + 3 <= |s| ==> !(s[j] == '|' && s[j + 1] == '-' && s[j + 2] == '>')
  {
    if |s| >= 3 && !(s[0] == '|' && s[1] == '-' && s[2] == '>') {
      NoArrowBefore(s[1..]);
      forall j | 0 <= j < FindArrow(s) && j + 3 <= |s| ensures !(s[j] == '|' && s[j + 1] == '-' && s[j + 2] == '>') {
        if j > 0 {
          assert s[1..][j - 1] == s[j] && s[1..][j] == s[j + 1] && s[1..][j + 1] == s[j + 2];
        }
      }
    }
  }

  lemma ArrowlessKey(left: string, before: string, key: Syntax, after: string)
    requires NoArrow(left) && IsTextOf(left, before, key, after) && KeyText(Meaning(key)).Ok?
    ensures WellFormedKey(key)
  {
    var text := Text(key);
    forall i | 0 <= i && i + 3 <= |text| ensures !(text[i] == '|' && text[i + 1] == '-' && text[i + 2] == '>') {
      var j := |before| + i;
      assert left[j] == text[i] && left[j + 1] == text[i + 1] && left[j + 2] == text[i + 2];
    }
  }

  lemma Reassemble(p: string, l: string, left: string, right: string, r: string,
                   b: string, key: string, ka: string, vb: string, body: string, a: string)
    requires p == l + (left + ("|->" + right)) + r && left == b + key + ka && right == vb + body + a
    ensures p == (l + b) + (key + ka + ("|->" + (vb + body))) + (a + r)
  {
  }

  /** The language of the parser: a text is accepted with a value exactly when it is the text,
      between blanks, of a tree that means this value. */
  lemma AcceptedExactly(s: string, v: Value)
    ensures ParseValue(s) == Ok(v)
            <==> exists before, t, after :: IsTextOf(s, before, t, after) && Meaning(t) == v
  {
    if ParseValue(s) == Ok(v) {
      var before, t, after := AcceptedIsText(s);
    }
    if before, t, after :| IsTextOf(s, before, t, after) && Meaning(t) == v {
      ParseRecoversMeaning(before, t, after);
    }
  }
}
