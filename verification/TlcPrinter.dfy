/** Printing a Python value in TLC syntax, and the round trip through the parser. */
module TlcPrinter {
  import opened TlcParser
  import opened TlcSyntax

  /** Values TLC can print: dictionaries have distinct identifier keys. */
  ghost predicate Printable(v: Value) {
    match v
    case PyBool(_) => true
    case PyInt(_) => true
    case PyStr(_) => true
    case PyList(items) => forall i :: 0 <= i < |items| ==> Printable(items[i])
    case PyDict(entries) =>
      && DistinctKeys(entries)
      && forall i :: 0 <= i < |entries| ==> IsKey(entries[i].0) && Printable(entries[i].1)
  }

  predicate HasKey(entries: seq<(string, Value)>, key: string) {
    exists i :: 0 <= i < |entries| && entries[i].0 == key
  }

  ghost predicate DistinctKeys(entries: seq<(string, Value)>) {
    forall i, j :: 0 <= i < j < |entries| ==> entries[i].0 != entries[j].0
  }

  function LowHex(n: nat): char
    requires n < 16
  {
    if n < 10 then (n + '0' as nat) as char else (n - 10 + 'a' as nat) as char
  }

  function Spell(c: char): (g: Glyph)
    ensures GlyphOk(g) && GlyphChar(g) == c
  {
    if c == '"' || c == '\\' then Escape(c)
    else if c == '\n' then Escape('n')
    else if c == '\t' then Escape('t')
    else if c == '\r' then Escape('r')
    else if c as int < 0x20 then
      Unicode(['0', '0', LowHex(c as nat / 16), LowHex(c as nat % 16)])
    else Raw(c)
  }

  function SpellAll(s: string): (gs: seq<Glyph>)
    ensures forall i :: 0 <= i < |gs| ==> GlyphOk(gs[i])
    ensures GlyphsChars(gs) == s
  {
    if s == "" then []
    else
      var gs := [Spell(s[0])] + SpellAll(s[1..]);
      assert gs[1..] == SpellAll(s[1..]);
      gs
  }

  lemma {:induction false} DecimalRoundTrip(n: nat)
    ensures Decimal(n) != "" && AllDigits(Decimal(n)) && DigitsValue(Decimal(n)) == n
  {
    if n < 10 {
      assert DigitsValue("") == 0;
      assert Decimal(n)[..0] == "";
    } else {
      DecimalRoundTrip(n / 10);
      var d := Decimal(n);
      assert d[..|d| - 1] == Decimal(n / 10);
    }
  }

  function Canon(v: Value): Syntax
    decreases v
  {
    match v
    case PyBool(b) => Truth(b)
    case PyInt(n) => Number(n < 0, Decimal(if n < 0 then -n else n))
    case PyStr(s) => Quoted(SpellAll(s))
    case PyList(items) => SetText(CanonItems("", items))
    case PyDict(entries) => FunText(CanonEntries("", entries))
  }

  /** `before` is the blank in front of the first item; later items follow a comma and a blank. */
  function CanonItems(before: string, items: seq<Value>): ItemList
    decreases items
  {
    if items == [] then EndItems
    else ConsItem(before, Canon(items[0]), "", CanonItems(" ", items[1..]))
  }

  function CanonOf(entry: (string, Value)): Syntax
    decreases entry
  {
    Canon(entry.1)
  }

  function CanonEntries(before: string, entries: seq<(string, Value)>): EntryList
    decreases entries
  {
    if entries == [] then EndEntries
    else ConsEntry(before, Name(entries[0].0), " ", " ", CanonOf(entries[0]), "", CanonEntries(" ", entries[1..]))
  }

  function Print(v: Value): string {
    Text(Canon(v))
  }

  lemma {:induction false} PutNew(entries: seq<(string, Value)>, key: string, v: Value)
    requires !HasKey(entries, key)
    ensures Put(entries, key, v) == entries + [(key, v)]
  {
    if entries != [] {
      assert forall i :: 0 <= i < |entries[1..]| ==> entries[1..][i] == entries[i + 1];
      PutNew(entries[1..], key, v);
    }
  }

  lemma {:induction false} CanonMeans(v: Value)
    requires Printable(v)
    ensures WellFormed(Canon(v)) && Meaning(Canon(v)) == v
    decreases v, 1
  {
    match v
    case PyBool(_) =>
    case PyInt(n) => DecimalRoundTrip(if n < 0 then -n else n);
    case PyStr(_) =>
    case PyList(items) =>
      CanonItemsMean([], "", items);
      assert [] + items == items;
    case PyDict(entries) =>
      CanonEntriesMean([], "", entries);
      assert [] + entries == entries;
  }

  lemma {:induction false} CanonOfMeans(entry: (string, Value))
    requires Printable(entry.1)
    ensures WellFormed(CanonOf(entry)) && Meaning(CanonOf(entry)) == entry.1
    decreases entry, 1
  {
    CanonMeans(entry.1);
  }

  lemma {:induction false} CanonItemsMean(acc: seq<Value>, before: string, items: seq<Value>)
    requires AllSpace(before) && forall i :: 0 <= i < |items| ==> Printable(items[i])
    ensures WellFormedItems(CanonItems(before, items))
    ensures ItemsMeaning(acc, CanonItems(before, items)) == acc + items
    decreases items, 0
  {
    if items != [] {
      CanonMeans(items[0]);
      CanonItemsMean(acc + [items[0]], " ", items[1..]);
      assert (acc + [items[0]]) + items[1..] == acc + items;
    }
  }

  lemma {:induction false} CanonEntriesMean(acc: seq<(string, Value)>, before: string, entries: seq<(string, Value)>)
    requires AllSpace(before) && DistinctKeys(acc + entries)
    requires forall i :: 0 <= i < |entries| ==> IsKey(entries[i].0) && Printable(entries[i].1)
    ensures WellFormedEntries(CanonEntries(before, entries))
    ensures EntriesMeaning(acc, CanonEntries(before, entries)) == acc + entries
    decreases entries, 0
  {
    if entries != [] {
      var (key, v) := entries[0];
      CanonOfMeans(entries[0]);
      assert (acc + entries)[|acc|] == entries[0];
      assert !HasKey(acc, key) by {
        assert forall i :: 0 <= i < |acc| ==> (acc + entries)[i] == acc[i];
      }
      PutNew(acc, key, v);
      assert (acc + [entries[0]]) + entries[1..] == acc + entries;
      NameIsKey(key);
      CanonEntriesMean(acc + [entries[0]], " ", entries[1..]);
    }
  }

  /** Printing and then parsing gives back every printable value. */
  lemma PrintParseRoundTrip(v: Value)
    requires Printable(v)
    ensures ParseValue(Print(v)) == Ok(v)
  {
    CanonMeans(v);
    ParseText(Canon(v));
  }
}
