/** The reader for values in TLC trace modules: a splitter that cuts a comma-separated list
    at its top-level commas, and a recursive parser over it. */
module TlcParser {

  // Python values. A dictionary keeps its keys in insertion order.
  datatype Value =
    | PyBool(b: bool)
    | PyInt(n: int)
    | PyStr(s: string)
    | PyList(items: seq<Value>)
    | PyDict(entries: seq<(string, Value)>)

  datatype Result<T> = Ok(value: T) | Fail {
    predicate IsFailure() { Fail? }
    function PropagateFailure<U>(): Result<U> requires Fail? { Fail }
    function Extract(): T requires Ok? { value }
  }

  // Whitespace as `str.strip` sees it.

  predicate IsSpace(c: char) {
    var n := c as int;
    || 0x09 <= n <= 0x0D || 0x1C <= n <= 0x20 || n == 0x85 || n == 0xA0 || n == 0x1680
    || 0x2000 <= n <= 0x200A || n == 0x2028 || n == 0x2029 || n == 0x202F || n == 0x205F || n == 0x3000
  }

  function StripLeft(s: string): (r: string)
    ensures |r| <= |s| && (r == "" || !IsSpace(r[0]))
  {
    if s != "" && IsSpace(s[0]) then StripLeft(s[1..]) else s
  }

  function StripRight(s: string): (r: string)
    ensures |r| <= |s| && (r == "" || !IsSpace(r[|r| - 1]))
  {
    if s != "" && IsSpace(s[|s| - 1]) then StripRight(s[..|s| - 1]) else s
  }

  function Strip(s: string): (r: string)
    ensures |r| <= |s|
  {
    StripRight(StripLeft(s))
  }

  // The splitter's character state.

  datatype Scan = Scan(depth: int, quoted: bool, escaped: bool)

  const START := Scan(0, false, false)

  function Next(st: Scan, c: char): Scan {
    if st.quoted then
      if st.escaped then st.(escaped := false)
      else if c == '\\' then st.(escaped := true)
      else if c == '"' then st.(quoted := false)
      else st
    else if c == '"' then st.(quoted := true)
    else if c == '{' || c == '[' then st.(depth := st.depth + 1)
    else if c == '}' || c == ']' then st.(depth := st.depth - 1)
    else st
  }

  predicate IsSeparator(st: Scan, c: char) {
    !st.quoted && c == ',' && st.depth == 0
  }

  /** `p` put in front of the first of `ps`. */
  function Prepend(p: string, ps: seq<string>): (r: seq<string>)
    requires ps != []
    ensures |r| == |ps|
  {
    [p + ps[0]] + ps[1..]
  }

  /** `s` cut at its separators, starting from state `st`; never empty. */
  function Pieces(s: string, st: Scan): (ps: seq<string>)
    ensures ps != []
    ensures forall i :: 0 <= i < |ps| ==> |ps[i]| <= |s|
  {
    if s == "" then [""]
    else
      var rest := Pieces(s[1..], Next(st, s[0]));
      if IsSeparator(st, s[0]) then [""] + rest else Prepend([s[0]], rest)
  }

  function StripAll(ps: seq<string>): (r: seq<string>)
    ensures |r| == |ps|
    ensures forall i :: 0 <= i < |r| ==> r[i] == Strip(ps[i])
  {
    seq(|ps|, i requires 0 <= i < |ps| => Strip(ps[i]))
  }

  /** The stripped pieces; a blank last piece is dropped, a blank earlier one is kept. */
  function ItemsOf(ps: seq<string>): (r: seq<string>)
    requires ps != []
    ensures forall i :: 0 <= i < |r| ==> i < |ps| && r[i] == Strip(ps[i])
  {
    var last := Strip(ps[|ps| - 1]);
    StripAll(ps[..|ps| - 1]) + (if last == "" then [] else [last])
  }

  function Items(s: string): (r: seq<string>)
    ensures forall i :: 0 <= i < |r| ==> |r[i]| <= |s|
  {
    ItemsOf(Pieces(s, START))
  }

  lemma PrependTwice(p: string, q: string, ps: seq<string>)
    requires ps != []
    ensures Prepend(p, Prepend(q, ps)) == Prepend(p + q, ps)
  {
    assert p + (q + ps[0]) == (p + q) + ps[0];
  }

  lemma PrependUnit(p: string, ps: seq<string>)
    ensures ps != [] ==> Prepend("", ps) == ps
    ensures Prepend(p, [""] + ps) == [p] + ps
  {
    assert p + "" == p;
    if ps != [] {
      assert "" + ps[0] == ps[0];
    }
  }

  /** The splitter at `index`: `done` holds the finished pieces and the piece being read
      starts at `start`. */
  ghost predicate CutSoFar(value: string, start: nat, index: nat, st: Scan, done: seq<string>)
  {
    && start <= index <= |value|
    && Pieces(value, START) == done + Prepend(value[start..index], Pieces(value[index..], st))
  }

  lemma CutStep(value: string, start: nat, index: nat, st: Scan, done: seq<string>)
    requires CutSoFar(value, start, index, st, done) && index < |value|
    ensures if IsSeparator(st, value[index])
            then CutSoFar(value, index + 1, index + 1, Next(st, value[index]), done + [value[start..index]])
            else CutSoFar(value, start, index + 1, Next(st, value[index]), done)
  {
    var c := value[index];
    var rest := Pieces(value[index + 1..], Next(st, c));
    assert value[index..][0] == c && value[index..][1..] == value[index + 1..];
    if IsSeparator(st, c) {
      PrependUnit(value[start..index], rest);
      assert value[index + 1..index + 1] == "";
      assert done + ([value[start..index]] + rest) == (done + [value[start..index]]) + rest;
    } else {
      PrependTwice(value[start..index], [c], rest);
      assert value[start..index] + [c] == value[start..index + 1];
    }
  }

  lemma CutDone(value: string, start: nat, st: Scan, done: seq<string>)
    requires CutSoFar(value, start, |value|, st, done)
    ensures Items(value) == StripAll(done) + (if Strip(value[start..]) == "" then [] else [Strip(value[start..])])
  {
    var all := done + [value[start..]];
    assert all[..|all| - 1] == done;
    assert value[|value|..] == "" && value[start..|value|] == value[start..];
    PrependUnit(value[start..], []);
    assert [""] + [] == [""];
  }

  lemma CutStart(value: string)
    ensures CutSoFar(value, 0, 0, START, [])
  {
    PrependUnit("", Pieces(value, START));
    assert value[0..] == value && value[0..0] == "";
  }

  lemma StripAllSnoc(ps: seq<string>, p: string)
    ensures StripAll(ps + [p]) == StripAll(ps) + [Strip(p)]
  {
  }

  /** The whole state of the loop; `items` are the finished pieces, stripped. */
  ghost predicate Splitting(value: string, start: nat, index: nat, st: Scan, done: seq<string>, items: seq<string>) {
    CutSoFar(value, start, index, st, done) && items == StripAll(done)
  }

  lemma SplitStep(value: string, start: nat, index: nat, st: Scan, done: seq<string>, items: seq<string>)
    requires Splitting(value, start, index, st, done, items) && index < |value|
    ensures start <= index
    ensures if IsSeparator(st, value[index])
            then Splitting(value, index + 1, index + 1, Next(st, value[index]), done + [value[start..index]],
                           items + [Strip(value[start..index])])
            else Splitting(value, start, index + 1, Next(st, value[index]), done, items)
  {
    CutStep(value, start, index, st, done);
    StripAllSnoc(done, value[start..index]);
  }

  lemma SplitDone(value: string, start: nat, st: Scan, done: seq<string>, items: seq<string>)
    requires Splitting(value, start, |value|, st, done, items)
    ensures start <= |value|
    ensures Items(value) == if Strip(value[start..]) == "" then items else items + [Strip(value[start..])]
  {
    CutDone(value, start, st, done);
  }

  /** The branches of the loop body; `cut` says that this comma ends an item. */
  method Advance(depth: int, quoted: bool, escaped: bool, c: char)
    returns (depth': int, quoted': bool, escaped': bool, cut: bool)
    ensures Scan(depth', quoted', escaped') == Next(Scan(depth, quoted, escaped), c)
    ensures cut <==> IsSeparator(Scan(depth, quoted, escaped), c)
  {
    depth', quoted', escaped', cut := depth, quoted, escaped, false;
    if quoted {
      if escaped {
        escaped' := false;
      } else if c == '\\' {
        escaped' := true;
      } else if c == '"' {
        quoted' := false;
      }
    } else if c == '"' {
      quoted' := true;
    } else if c == '{' || c == '[' {
      depth' := depth + 1;
    } else if c == '}' || c == ']' {
      depth' := depth - 1;
    } else if c == ',' && depth == 0 {
      cut := true;
    }
  }

  /** The character loop: the finished items and where the last piece starts. */
  method SplitLoop(value: string) returns (items: seq<string>, start: nat, ghost st: Scan, ghost done: seq<string>)
    ensures Splitting(value, start, |value|, st, done, items)
  {
    items, start := [], 0;
    var depth, quoted, escaped := 0, false, false;
    st, done := START, [];
    CutStart(value);
    for index := 0 to |value|
      invariant st == Scan(depth, quoted, escaped)
      invariant Splitting(value, start, index, st, done, items)
    {
      SplitStep(value, start, index, st, done, items);
      var cut;
      depth, quoted, escaped, cut := Advance(depth, quoted, escaped, value[index]);
      st := Next(st, value[index]);
      if cut {
        items := items + [Strip(value[start..index])];
        done := done + [value[start..index]];
        start := index + 1;
      }
    }
  }

  /** The whole split returns the stripped pieces, without a blank last one. */
  method SplitItems(value: string) returns (items: seq<string>)
    ensures items == Items(value)
  {
    var start;
    ghost var st, done;
    items, start, st, done := SplitLoop(value);
    SplitDone(value, start, st, done, items);
    var last := Strip(value[start..]);
    if last != "" {
      items := items + [last];
    }
  }

  // Leaves of the syntax.

  predicate IsDigit(c: char) { '0' <= c <= '9' }

  predicate IsLetter(c: char) { 'A' <= c <= 'Z' || 'a' <= c <= 'z' }

  predicate AllDigits(s: string) {
    forall i :: 0 <= i < |s| ==> IsDigit(s[i])
  }

  /** `-?\d+`, with ASCII digits. */
  predicate IsInteger(s: string) {
    var d := if s != "" && s[0] == '-' then s[1..] else s;
    d != "" && AllDigits(d)
  }

  function DigitsValue(s: string): (n: nat)
    requires AllDigits(s)
  {
    if s == "" then 0
    else 10 * DigitsValue(s[..|s| - 1]) + (s[|s| - 1] as int - '0' as int)
  }

  function IntegerValue(s: string): int
    requires IsInteger(s)
  {
    if s[0] == '-' then -(DigitsValue(s[1..]) as int) else DigitsValue(s)
  }

  /** `[A-Za-z][A-Za-z0-9_]*` */
  predicate IsIdentifier(s: string) {
    s != "" && IsLetter(s[0]) && forall i :: 0 <= i < |s| ==> IsLetter(s[i]) || IsDigit(s[i]) || s[i] == '_'
  }

  // JSON strings.

  function HexDigit(c: char): Result<nat> {
    if '0' <= c <= '9' then Ok(c as nat - '0' as nat)
    else if 'a' <= c <= 'f' then Ok(c as nat - 'a' as nat + 10)
    else if 'A' <= c <= 'F' then Ok(c as nat - 'A' as nat + 10)
    else Fail
  }

  /** The character named by four hexadecimal digits. */
  function Hex4(s: string): Result<char>
    requires |s| == 4
  {
    var n :- HexCode(s);
    if n < 0xD800 || 0xE000 <= n < 0x10000 then Ok(n as char) else Fail
  }

  function HexCode(s: string): Result<nat>
    requires |s| == 4
  {
    var a :- HexDigit(s[0]);
    var b :- HexDigit(s[1]);
    var c :- HexDigit(s[2]);
    var d :- HexDigit(s[3]);
    Ok(((a * 16 + b) * 16 + c) * 16 + d)
  }

  /** The character a one-letter escape stands for. */
  function SimpleEscape(c: char): Result<char> {
    if c == '"' || c == '\\' || c == '/' then Ok(c)
    else if c == 'b' then Ok(8 as char)
    else if c == 'f' then Ok(12 as char)
    else if c == 'n' then Ok('\n')
    else if c == 'r' then Ok('\r')
    else if c == 't' then Ok('\t')
    else Fail
  }

  /** `json.loads` on a text whose opening quote has been read: decodes up to the closing
      quote, which must be the last character. */
  function JsonBody(s: string): Result<string> {
    if s == "" then Fail
    else if s[0] == '"' then if |s| == 1 then Ok("") else Fail
    else if s[0] as int < 0x20 then Fail
    else if s[0] == '\\' then
      if |s| >= 6 && s[1] == 'u' then
        var c :- Hex4(s[2..6]);
        var rest :- JsonBody(s[6..]);
        Ok([c] + rest)
      else if |s| >= 2 then
        var c :- SimpleEscape(s[1]);
        var rest :- JsonBody(s[2..]);
        Ok([c] + rest)
      else Fail
    else
      var rest :- JsonBody(s[1..]);
      Ok([s[0]] + rest)
  }

  // Dictionaries.

  /** `entries[key] = value`: an existing key keeps its place. */
  function Put(entries: seq<(string, Value)>, key: string, value: Value): seq<(string, Value)> {
    if entries == [] then [(key, value)]
    else if entries[0].0 == key then [(key, value)] + entries[1..]
    else [entries[0]] + Put(entries[1..], key, value)
  }

  function Decimal(n: nat): string
    decreases n
  {
    if n < 10 then [(n + '0' as nat) as char] else Decimal(n / 10) + [(n % 10 + '0' as nat) as char]
  }

  /** `str(key)` for the scalar keys. */
  function KeyText(v: Value): Result<string> {
    match v
    case PyBool(b) => Ok(if b then "True" else "False")
    case PyInt(n) => Ok(if n < 0 then "-" + Decimal(-n) else Decimal(n))
    case PyStr(s) => Ok(s)
    case PyList(_) => Fail
    case PyDict(_) => Fail
  }

  /** Position of the first `|->`, or the length of `s` if there is none. */
  function FindArrow(s: string): (i: nat)
    ensures i == |s| || (i + 3 <= |s| && s[i] == '|' && s[i + 1] == '-' && s[i + 2] == '>')
  {
    if |s| < 3 then |s|
    else if s[0] == '|' && s[1] == '-' && s[2] == '>' then 0
    else FindArrow(s[1..]) + 1
  }

  function Keys(entries: seq<(string, Value)>): seq<string> {
    if entries == [] then [] else [entries[0].0] + Keys(entries[1..])
  }

  /** The value under a key. */
  function At(entries: seq<(string, Value)>, key: string): Result<Value> {
    if entries == [] then Fail else if entries[0].0 == key then Ok(entries[0].1) else At(entries[1..], key)
  }

  /** Assigning a key: it takes the new value, every other key keeps its own, and the keys keep
      their places, a new one coming last. */
  lemma {:induction false} PutExactly(entries: seq<(string, Value)>, key: string, value: Value, other: string)
    ensures Keys(Put(entries, key, value)) == if key in Keys(entries) then Keys(entries) else Keys(entries) + [key]
    ensures At(Put(entries, key, value), other) == if other == key then Ok(value) else At(entries, other)
  {
    if entries != [] && entries[0].0 != key {
      PutExactly(entries[1..], key, value, other);
      var tail := Put(entries[1..], key, value);
      assert ([entries[0]] + tail)[1..] == tail;
      assert [entries[0].0] + (Keys(entries[1..]) + [key]) == ([entries[0].0] + Keys(entries[1..])) + [key];
    } else if entries != [] {
      assert ([(key, value)] + entries[1..])[1..] == entries[1..];
    }
  }

  /** The one-letter escapes and nothing else. */
  lemma EscapeTable(c: char, x: char)
    ensures SimpleEscape(c) == Ok(x)
            <==> (c, x as int) in [('"', 0x22), ('\\', 0x5C), ('/', 0x2F), ('b', 0x08), ('f', 0x0C), ('n', 0x0A), ('r', 0x0D), ('t', 0x09)]
  {
  }

  /** What four hexadecimal digits stand for. */
  lemma HexValue(s: string, a: nat, b: nat, c: nat, d: nat)
    requires |s| == 4 && HexDigit(s[0]) == Ok(a) && HexDigit(s[1]) == Ok(b) && HexDigit(s[2]) == Ok(c) && HexDigit(s[3]) == Ok(d)
    ensures var n := 4096 * a + 256 * b + 16 * c + d;
            if 0xD800 <= n < 0xE000 then Hex4(s).Fail? else Hex4(s).Ok? && Hex4(s).value as int == n
  {
    assert HexCode(s) == Ok(((a * 16 + b) * 16 + c) * 16 + d);
  }

  lemma HexDigits(c: char, n: nat)
    ensures HexDigit(c) == Ok(n) <==> n < 16 && (c == "0123456789abcdef"[n] || c == "0123456789ABCDEF"[n])
  {
  }

  /** The text of a key: booleans as Python writes them, numbers in decimal, strings as they
      are; sets and functions are not keys here. */
  lemma KeyTexts(v: Value)
    ensures v == PyBool(true) ==> KeyText(v) == Ok("True")
    ensures v == PyBool(false) ==> KeyText(v) == Ok("False")
    ensures v.PyInt? && v.n >= 0 ==> KeyText(v) == Ok(Decimal(v.n))
    ensures v.PyInt? && v.n < 0 ==> KeyText(v) == Ok("-" + Decimal(-v.n))
    ensures v.PyStr? ==> KeyText(v) == Ok(v.s)
    ensures v.PyList? || v.PyDict? ==> KeyText(v).Fail?
  {
  }

  // The parser.

  predicate IsEnclosed(v: string, open: char, close: char) {
    |v| >= 2 && v[0] == open && v[|v| - 1] == close
  }

  /** Booleans, integers, quoted strings and identifiers. */
  function ParseScalar(v: string): Result<Value> {
    if v == "TRUE" then Ok(PyBool(true))
    else if v == "FALSE" then Ok(PyBool(false))
    else if IsInteger(v) then Ok(PyInt(IntegerValue(v)))
    else if v != "" && v[0] == '"' then
      var s :- JsonBody(v[1..]);
      Ok(PyStr(s))
    else if IsIdentifier(v) then Ok(PyStr(v))
    else Fail
  }

  function ParseValue(value: string): Result<Value>
    decreases |value|, 1
  {
    ParseStripped(Strip(value))
  }

  function ParseStripped(v: string): Result<Value>
    decreases |v|, 0
  {
    if IsEnclosed(v, '{', '}') then ParseBraced(Strip(v[1..|v| - 1]))
    else if IsEnclosed(v, '[', ']') then ParseBracketed(Strip(v[1..|v| - 1]))
    else ParseScalar(v)
  }

  function ParseBraced(inner: string): Result<Value>
    decreases |inner|, 3
  {
    if inner == "" then Ok(PyList([]))
    else
      var items :- ParseItems([], Items(inner), |inner|);
      Ok(PyList(items))
  }

  function ParseBracketed(inner: string): Result<Value>
    decreases |inner|, 3
  {
    var entries :- ParseEntries([], Items(inner), |inner|);
    Ok(PyDict(entries))
  }

  /** Parses `items` in order, appending to `acc`. */
  function ParseItems(acc: seq<Value>, items: seq<string>, bound: nat): Result<seq<Value>>
    requires forall i :: 0 <= i < |items| ==> |items[i]| <= bound
    decreases bound, 2, |items|
  {
    if items == [] then Ok(acc)
    else
      var x :- ParseValue(items[0]);
      ParseItems(acc + [x], items[1..], bound)
  }

  function ParseEntry(item: string): Result<(string, Value)>
    decreases |item|, 1
  {
    var i := FindArrow(item);
    if i == |item| then Fail
    else EntryOf(ParseValue(Strip(item[..i])), ParseValue(Strip(item[i + 3..])))
  }

  function EntryOf(key: Result<Value>, value: Result<Value>): Result<(string, Value)> {
    var k :- key;
    var text :- KeyText(k);
    var v :- value;
    Ok((text, v))
  }

  /** Parses `items` in order, assigning each key into `acc`. */
  function ParseEntries(acc: seq<(string, Value)>, items: seq<string>, bound: nat): Result<seq<(string, Value)>>
    requires forall i :: 0 <= i < |items| ==> |items[i]| <= bound
    decreases bound, 2, |items|
  {
    if items == [] then Ok(acc)
    else
      var entry :- ParseEntry(items[0]);
      ParseEntries(Put(acc, entry.0, entry.1), items[1..], bound)
  }

  /** The parser as written: recursion over the split items, a loop filling a dictionary. */
  method Parse(value: string) returns (r: Result<Value>)
    ensures r == ParseValue(value)
    decreases |value|, 0
  {
    var v := Strip(value);
    if v == "TRUE" { return Ok(PyBool(true)); }
    if v == "FALSE" { return Ok(PyBool(false)); }
    if IsInteger(v) { return Ok(PyInt(IntegerValue(v))); }
    if v != "" && v[0] == '"' {
      var s := JsonBody(v[1..]);
      return if s.Ok? then Ok(PyStr(s.value)) else Fail;
    }
    if v != "" && v[0] == '{' && v[|v| - 1] == '}' {
      r := ParseList(Strip(v[1..|v| - 1]));
      return;
    }
    if v != "" && v[0] == '[' && v[|v| - 1] == ']' {
      r := ParseDict(Strip(v[1..|v| - 1]));
      return;
    }
    return if IsIdentifier(v) then Ok(PyStr(v)) else Fail;
  }

  method ParseList(inner: string) returns (r: Result<Value>)
    ensures r == ParseBraced(inner)
    decreases |inner|, 2
  {
    if inner == "" { return Ok(PyList([])); }
    var items := SplitItems(inner);
    var list: seq<Value> := [];
    for i := 0 to |items|
      invariant ParseItems(list, items[i..], |inner|) == ParseItems([], items, |inner|)
    {
      assert items[i..][1..] == items[i + 1..];
      var x := Parse(items[i]);
      if x.Fail? { return Fail; }
      list := list + [x.value];
    }
    r := Ok(PyList(list));
  }

  method ParseDictEntry(item: string) returns (r: Result<(string, Value)>)
    ensures r == ParseEntry(item)
    decreases |item|, 1
  {
    var at := FindArrow(item);
    if at == |item| { return Fail; }
    var key := Parse(Strip(item[..at]));
    if key.Fail? { return Fail; }
    var x := Parse(Strip(item[at + 3..]));
    var text := KeyText(key.value);
    return if text.Fail? || x.Fail? then Fail else Ok((text.value, x.value));
  }

  method ParseDict(inner: string) returns (r: Result<Value>)
    ensures r == ParseBracketed(inner)
    decreases |inner|, 2
  {
    var items := SplitItems(inner);
    var result: seq<(string, Value)> := [];
    for i := 0 to |items|
      invariant ParseEntries(result, items[i..], |inner|) == ParseEntries([], items, |inner|)
    {
      assert items[i..][1..] == items[i + 1..];
      var entry := ParseDictEntry(items[i]);
      if entry.Fail? { return Fail; }
      result := Put(result, entry.value.0, entry.value.1);
    }
    r := Ok(PyDict(result));
  }
}
