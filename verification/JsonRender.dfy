/** A reference renderer for the dialect that the reader accepts, with brackets for lists and free
    white space, and the proof that the reader inverts it. */
module JsonRender {
  import opened Decimal
  import opened Json

  // ---------- Reference documents ----------

  /** A text to be read: white space may stand before every element, key and value. */
  datatype Doc =
    | DInt(n: int32)
    | DStr(s: string)
    | DList(items: seq<Item>)
    | DDict(entries: seq<Entry>)

  datatype Item = Item(space: string, doc: Doc)
  datatype Entry = Entry(before: string, key: string, between: string, doc: Doc)

  ghost predicate WellSpaced(d: Doc) {
    match d
    case DList(items) => forall x | x in items :: AllSpaces(x.space) && WellSpaced(x.doc)
    case DDict(entries) =>
      forall x | x in entries :: AllSpaces(x.before) && AllSpaces(x.between) && WellSpaced(x.doc)
    case _ => true
  }

  predicate AllSpaces(s: string) {
    forall c | c in s :: IsSpace(c)
  }

  /** `std::quoted`. */
  function Quoted(s: string): string {
    "\"" + Escape(s) + "\""
  }

  function Escape(s: string): string {
    if s == [] then [] else
    (if s[0] == '"' || s[0] == '\\' then ['\\', s[0]] else [s[0]]) + Escape(s[1..])
  }

  function Comma<T>(rest: seq<T>): string {
    if rest == [] then "" else ","
  }

  function Render(d: Doc): string
    decreases d, 0
  {
    match d
    case DInt(n) => IntText(n)
    case DStr(s) => Quoted(s)
    case DList(items) => "[" + RenderItems(items)
    case DDict(entries) => "{" + RenderEntries(entries)
  }

  function RenderItems(items: seq<Item>): string
    decreases items, 1
  {
    if items == [] then "]" else
    items[0].space + Render(items[0].doc) + Comma(items[1..]) + RenderItems(items[1..])
  }

  function RenderEntry(e: Entry): string
    decreases e, 1
  {
    e.before + Quoted(e.key) + ":" + e.between + Render(e.doc)
  }

  function RenderEntries(entries: seq<Entry>): string
    decreases entries, 1
  {
    if entries == [] then "}" else
    RenderEntry(entries[0]) + Comma(entries[1..]) + RenderEntries(entries[1..])
  }

  function Value(d: Doc): Json
    decreases d, 0
  {
    match d
    case DInt(n) => Int(n)
    case DStr(s) => Str(s)
    case DList(items) => Array(Items(items))
    case DDict(entries) => Dict(Entries(entries, map[]))
  }

  function Items(items: seq<Item>): seq<Json>
    decreases items, 1
  {
    if items == [] then [] else [Value(items[0].doc)] + Items(items[1..])
  }

  /** `insert_or_assign`, entry after entry. */
  function Entries(entries: seq<Entry>, m: map<string, Json>): map<string, Json>
    decreases entries, 1
  {
    if entries == [] then m else Entries(entries[1..], m[entries[0].key := Value(entries[0].doc)])
  }

  // ---------- Texts inside texts ----------

  /** `text` stands in `json` at `i`. */
  ghost predicate At(json: string, i: nat, text: string) {
    i + |text| <= |json| && forall k | 0 <= k < |text| :: text[k] == json[i + k]
  }

  lemma AtFits(json: string, i: nat, text: string)
    requires At(json, i, text)
    ensures i + |text| <= |json|
  {
  }

  lemma AtSplit(json: string, i: nat, a: string, b: string)
    requires At(json, i, a + b)
    ensures At(json, i, a) && At(json, i + |a|, b)
    ensures a != [] ==> json[i] == a[0]
  {
    forall k | 0 <= k < |a| ensures a[k] == json[i + k] {
      assert (a + b)[k] == a[k];
    }
    forall k | 0 <= k < |b| ensures b[k] == json[i + |a| + k] {
      assert (a + b)[|a| + k] == b[k];
    }
  }

  lemma AtShift(json: string, k: nat, i: nat, text: string)
    requires k <= |json| && At(json, k + i, text)
    ensures At(json[k..], i, text)
  {
  }

  lemma AtFirst(json: string, i: nat, text: string)
    requires At(json, i, text) && text != []
    ensures i < |json| && json[i] == text[0]
  {
  }

  lemma AtPrefix(json: string, text: string)
    requires At(json, 0, text)
    ensures json[..|text|] == text
  {
  }

  /** What stands at `j` does not continue a number; every other value ends itself. */
  predicate EndsNumber(json: string, j: nat) {
    j < |json| ==> !IsDigit(json[j]) && json[j] !in {'.', 'e', 'E'}
  }

  // ---------- Reading back scalars ----------

  lemma {:induction false} SpacesAre(json: string, space: string)
    requires At(json, 0, space) && AllSpaces(space)
    requires |space| < |json| ==> !IsSpace(json[|space|])
    ensures Spaces(json) == |space|
    decreases |space|
  {
    if space != [] {
      assert space[0] in space;
      AtSplit(json, 0, space[..1], space[1..]);
      AtShift(json, 1, 0, space[1..]);
      SpacesAre(json[1..], space[1..]);
    }
  }

  lemma {:induction false} DigitRunIs(json: string, digits: string)
    requires At(json, 0, digits) && AllDigits(digits)
    requires |digits| < |json| ==> !IsDigit(json[|digits|])
    ensures DigitRun(json) == |digits|
    decreases |digits|
  {
    if digits != [] {
      assert digits[0] in digits;
      AtSplit(json, 0, digits[..1], digits[1..]);
      AtShift(json, 1, 0, digits[1..]);
      DigitRunIs(json[1..], digits[1..]);
    }
  }

  lemma NumberLenIs(json: string, n: int)
    requires At(json, 0, IntText(n)) && EndsNumber(json, |IntText(n)|)
    ensures NumberLen(json) == |IntText(n)|
  {
    hide NumberLen, Digits, DigitsValue, EndsNumber;
    var sign := if n < 0 then "-" else "";
    var digits := if n < 0 then Digits(-n) else Digits(n);
    assert IntText(n) == sign + digits;
    AtSplit(json, 0, sign, digits);
    NumberLenOf(json, sign, digits);
  }

  lemma NumberLenOf(json: string, sign: string, digits: string)
    requires sign in {"", "-"} && digits != [] && AllDigits(digits)
    requires At(json, 0, sign) && At(json, |sign|, digits) && EndsNumber(json, |sign| + |digits|)
    ensures NumberLen(json) == |sign| + |digits|
  {
    hide At, DigitRun;
    AtFits(json, |sign|, digits);
    AtShift(json, |sign|, 0, digits);
    DigitRunIs(json[|sign|..], digits);
    SignIs(json, sign, digits);
    NoExponent(json, |sign| + |digits|);
  }

  lemma SignIs(json: string, sign: string, digits: string)
    requires sign in {"", "-"} && digits != [] && AllDigits(digits)
    requires At(json, 0, sign) && At(json, |sign|, digits)
    ensures SignLen(json) == |sign|
  {
    assert digits[0] in digits;
    AtFirst(json, |sign|, digits);
    if sign != "" {
      AtFirst(json, 0, sign);
    }
  }

  lemma NoExponent(json: string, j: nat)
    requires j <= |json| && EndsNumber(json, j)
    ensures ExponentLen(json[j..]) == 0
  {
    assert j < |json| ==> json[j..][0] == json[j];
  }

  lemma IntTextStarts(n: int)
    ensures IntText(n) != [] && (IsDigit(IntText(n)[0]) || IntText(n)[0] == '-')
  {
    if n >= 0 {
      assert Digits(n)[0] in Digits(n);
    }
  }

  lemma IntReadsBack(fits: DoubleRange, json: string, n: int32)
    requires At(json, 0, IntText(n)) && EndsNumber(json, |IntText(n)|)
    ensures Parse(fits, json) == Parsed(Int(n), |IntText(n)|)
  {
    IntTextStarts(n);
    IntTextRoundTrip(n);
    NumberLenIs(json, n);
    AtFirst(json, 0, IntText(n));
    AtPrefix(json, IntText(n));
    assert SearchNumber(json) == IntText(n);
    assert Spaces(json) == 0;
  }

  lemma {:induction false} StringLoopReads(json: string, i: nat, s: string, str: string)
    requires At(json, i, Escape(s) + "\"")
    ensures StringLoop(json, i, false, str) == Parsed(Str(str + s), i + |Escape(s)| + 1)
    decreases |s|
  {
    AtSplit(json, i, Escape(s), "\"");
    if s == [] {
      AtFirst(json, i, "\"");
      assert str + [] == str;
    } else {
      var c := s[0];
      var first := if c == '"' || c == '\\' then ['\\', c] else [c];
      assert Escape(s) + "\"" == first + (Escape(s[1..]) + "\"");
      AtSplit(json, i, first, Escape(s[1..]) + "\"");
      assert str + "" == str && str + [c] + s[1..] == str + s;
      CharIsTaken(json, i, c, str);
      StringLoopReads(json, i + |first|, s[1..], str + [c]);
    }
  }

  lemma CharIsTaken(json: string, i: nat, c: char, str: string)
    requires At(json, i, if c == '"' || c == '\\' then ['\\', c] else [c])
    ensures StringLoop(json, i, false, str)
            == StringLoop(json, i + if c == '"' || c == '\\' then 2 else 1, false, str + [c])
  {
    assert str + "" == str;
    if c == '"' || c == '\\' {
      AtSplit(json, i, ['\\'], [c]);
      AtFirst(json, i + 1, [c]);
      assert StringLoop(json, i, false, str) == StringLoop(json, i + 1, true, str);
    } else {
      AtFirst(json, i, [c]);
    }
  }

  lemma StringReadsBack(fits: DoubleRange, json: string, s: string)
    requires At(json, 0, Quoted(s))
    ensures Parse(fits, json) == Parsed(Str(s), |Quoted(s)|)
  {
    assert Quoted(s) == "\"" + (Escape(s) + "\"");
    AtSplit(json, 0, "\"", Escape(s) + "\"");
    StringLoopReads(json, 1, s, []);
    assert [] + s == s;
    assert Spaces(json) == 0;
  }

  lemma ParseAfterSpaces(fits: DoubleRange, json: string, space: string)
    requires At(json, 0, space) && AllSpaces(space)
    requires |space| < |json| && !IsSpace(json[|space|])
    ensures Parse(fits, json)
            == var p := Parse(fits, json[|space|..]); p.(eaten := p.eaten + |space|)
  {
    SpacesAre(json, space);
    assert json[0..] == json;
  }

  // ---------- Reading back documents ----------

  lemma FirstChar(d: Doc)
    ensures Render(d) != [] && !IsSpace(Render(d)[0])
    ensures Render(d)[0] !in {'}', ']', ',', ':'}
  {
    if d.DInt? {
      IntTextStarts(d.n);
    }
  }

  /** Every document reads back as its value and is eaten whole, whatever follows it, in any key
      order and with any white space. */
  lemma {:induction false} DocReadsBack(fits: DoubleRange, json: string, d: Doc)
    requires WellSpaced(d) && At(json, 0, Render(d)) && EndsNumber(json, |Render(d)|)
    ensures Parse(fits, json) == Parsed(Value(d), |Render(d)|)
    decreases d, 0
  {
    match d
    case DInt(n) => IntReadsBack(fits, json, n);
    case DStr(s) => StringReadsBack(fits, json, s);
    case DList(items) => ListReadsBack(fits, json, items);
    case DDict(entries) => DictReadsBack(fits, json, entries);
  }

  /** The parser of the rest of `json` reads `text` as `v`, wherever it stands. */
  ghost predicate Reads(rest: Rest, json: string, text: string, v: Json) {
    && text != [] && text[0] !in {'}', ']', ',', ':'}
    && forall i: nat | 1 <= i && At(json, i, text) && EndsNumber(json, i + |text|)
         :: rest(i) == Parsed(v, |text|)
  }

  lemma {:induction false} DocReads(fits: DoubleRange, json: string, space: string, d: Doc)
    requires AllSpaces(space) && WellSpaced(d)
    ensures Reads(RestOf(fits, json), json, space + Render(d), Value(d))
    decreases d, 2
  {
    hide Parse, Render;
    var text := space + Render(d);
    FirstChar(d);
    assert space != [] ==> space[0] in space;
    forall i: nat | 1 <= i && At(json, i, text) && EndsNumber(json, i + |text|)
      ensures RestOf(fits, json)(i) == Parsed(Value(d), |text|)
    {
      AtSplit(json, i, space, Render(d));
      SpacedAt(json, i, space, Render(d));
      DocReadsBack(fits, json[i + |space|..], d);
      ParseAfterSpaces(fits, json[i..], space);
    }
  }

  lemma SpacedAt(json: string, i: nat, space: string, text: string)
    requires At(json, i, space) && At(json, i + |space|, text) && text != [] && !IsSpace(text[0])
    ensures At(json[i..], 0, space) && At(json[i + |space|..], 0, text)
    ensures |space| < |json[i..]| && !IsSpace(json[i..][|space|])
    ensures json[i..][|space|..] == json[i + |space|..]
    ensures EndsNumber(json, i + |space| + |text|) ==> EndsNumber(json[i + |space|..], |text|)
  {
    AtShift(json, i, 0, space);
    AtShift(json, i + |space|, 0, text);
    AtFirst(json, i + |space|, text);
  }

  lemma KeyReads(fits: DoubleRange, json: string, space: string, key: string)
    requires AllSpaces(space)
    ensures Reads(RestOf(fits, json), json, space + Quoted(key), Str(key))
  {
    hide Parse;
    var text := space + Quoted(key);
    assert space != [] ==> space[0] in space;
    forall i: nat | 1 <= i && At(json, i, text)
      ensures RestOf(fits, json)(i) == Parsed(Str(key), |text|)
    {
      AtSplit(json, i, space, Quoted(key));
      SpacedAt(json, i, space, Quoted(key));
      StringReadsBack(fits, json[i + |space|..], key);
      ParseAfterSpaces(fits, json[i..], space);
    }
  }

  lemma {:induction false} ListReadsBack(fits: DoubleRange, json: string, items: seq<Item>)
    requires WellSpaced(DList(items)) && At(json, 0, "[" + RenderItems(items))
    ensures Parse(fits, json) == Parsed(Array(Items(items)), 1 + |RenderItems(items)|)
    decreases items, 0
  {
    hide Parse, Render;
    forall x | x in items ensures Reads(RestOf(fits, json), json, x.space + Render(x.doc), Value(x.doc)) {
      DocReads(fits, json, x.space, x.doc);
    }
    AtSplit(json, 0, "[", RenderItems(items));
    ParseContainer(fits, json);
    ItemsReadBack(RestOf(fits, json), json, 1, items, []);
    assert [] + Items(items) == Items(items);
  }

  /** A value ends where a comma or the closing bracket stands. */
  lemma CommaStands(json: string, j: nat, comma: string, tail: string)
    requires At(json, j, comma) && At(json, j + |comma|, tail)
    requires comma == "," || (comma == "" && tail != [] && tail[0] in {']', '}'})
    ensures EndsNumber(json, j) && Skip(json, j, ',') == j + |comma|
  {
    if comma == "" {
      AtFirst(json, j, tail);
    } else {
      AtFirst(json, j, comma);
    }
  }

  /** One turn of the list loop. */
  lemma ListStep(rest: Rest, json: string, i: nat, res: seq<Json>, text: string, v: Json, comma: string, tail: string)
    requires 1 <= i && Within(rest, json) && At(json, i, text) && At(json, i + |text|, comma)
    requires At(json, i + |text| + |comma|, tail)
    requires Reads(rest, json, text, v)
    requires comma == "," || (comma == "" && tail != [] && tail[0] == ']')
    ensures ListLoop(rest, json, i, res) == ListLoop(rest, json, i + |text| + |comma|, res + [v])
  {
    AtFirst(json, i, text);
    CommaStands(json, i + |text|, comma, tail);
    assert rest(i) == Parsed(v, |text|);
  }

  lemma {:induction false} ItemsReadBack(rest: Rest, json: string, i: nat, items: seq<Item>, res: seq<Json>)
    requires 1 <= i && Within(rest, json) && At(json, i, RenderItems(items))
    requires forall x | x in items :: Reads(rest, json, x.space + Render(x.doc), Value(x.doc))
    ensures ListLoop(rest, json, i, res) == Parsed(Array(res + Items(items)), i + |RenderItems(items)|)
    decreases |items|
  {
    hide Render, Value, Reads, At, ListLoop;
    if items == [] {
      ClosingBracket(rest, json, i, res);
      assert res + [] == res;
    } else {
      var x, more := items[0], items[1..];
      var j := ItemTurn(rest, json, i, items, res);
      ItemsReadBack(rest, json, j, more, res + [Value(x.doc)]);
      assert res + [Value(x.doc)] + Items(more) == res + Items(items);
    }
  }

  lemma ClosingBracket(rest: Rest, json: string, i: nat, res: seq<Json>)
    requires Within(rest, json) && At(json, i, "]")
    ensures ListLoop(rest, json, i, res) == Parsed(Array(res), i + 1)
  {
    AtFirst(json, i, "]");
  }

  lemma ItemTurn(rest: Rest, json: string, i: nat, items: seq<Item>, res: seq<Json>) returns (j: nat)
    requires 1 <= i && Within(rest, json) && items != [] && At(json, i, RenderItems(items))
    requires Reads(rest, json, items[0].space + Render(items[0].doc), Value(items[0].doc))
    ensures j <= |json| && j + |RenderItems(items[1..])| == i + |RenderItems(items)| && i <= j
    ensures At(json, j, RenderItems(items[1..]))
    ensures ListLoop(rest, json, i, res) == ListLoop(rest, json, j, res + [Value(items[0].doc)])
  {
    hide *;
    var x, more := items[0], items[1..];
    var text, comma, tail := x.space + Render(x.doc), Comma(more), RenderItems(more);
    ItemsSplit(json, i, items, text, comma, tail);
    CommaOrBracket(more);
    ListStep(rest, json, i, res, text, Value(x.doc), comma, tail);
    j := i + |text| + |comma|;
  }

  lemma CommaOrBracket(items: seq<Item>)
    ensures if items == [] then Comma(items) == "" && RenderItems(items) == "]" else Comma(items) == ","
  {
  }

  lemma ItemsParts(items: seq<Item>, text: string, comma: string, tail: string)
    requires items != [] && text == items[0].space + Render(items[0].doc) && comma == Comma(items[1..])
    requires tail == RenderItems(items[1..])
    ensures RenderItems(items) == text + comma + tail
  {
    hide Render, Comma;
  }

  lemma ItemsSplit(json: string, i: nat, items: seq<Item>, text: string, comma: string, tail: string)
    requires items != [] && At(json, i, RenderItems(items))
    requires text == items[0].space + Render(items[0].doc) && comma == Comma(items[1..])
    requires tail == RenderItems(items[1..])
    ensures At(json, i, text) && At(json, i + |text|, comma) && At(json, i + |text| + |comma|, tail)
    ensures |RenderItems(items)| == |text| + |comma| + |tail| && i + |RenderItems(items)| <= |json|
  {
    hide *;
    AtFits(json, i, RenderItems(items));
    ItemsParts(items, text, comma, tail);
    AtSplit(json, i, text + comma, tail);
    AtSplit(json, i, text, comma);
  }

  lemma {:induction false} DictReadsBack(fits: DoubleRange, json: string, entries: seq<Entry>)
    requires WellSpaced(DDict(entries)) && At(json, 0, "{" + RenderEntries(entries))
    ensures Parse(fits, json) == Parsed(Dict(Entries(entries, map[])), 1 + |RenderEntries(entries)|)
    decreases entries, 0
  {
    hide Parse, Render;
    forall x | x in entries ensures EntryReads(RestOf(fits, json), json, x) {
      KeyReads(fits, json, x.before, x.key);
      DocReads(fits, json, x.between, x.doc);
    }
    AtSplit(json, 0, "{", RenderEntries(entries));
    ParseContainer(fits, json);
    EntriesReadBack(RestOf(fits, json), json, 1, entries, map[]);
  }

  ghost predicate EntryReads(rest: Rest, json: string, x: Entry) {
    && Reads(rest, json, x.before + Quoted(x.key), Str(x.key))
    && Reads(rest, json, x.between + Render(x.doc), Value(x.doc))
  }

  /** One turn of the dict loop, up to the value. */
  lemma DictStep(rest: Rest, json: string, i: nat, res: map<string, Json>, keyText: string, key: string)
    requires 1 <= i && Within(rest, json) && At(json, i, keyText) && At(json, i + |keyText|, ":")
    requires Reads(rest, json, keyText, Str(key))
    ensures var j := i + |keyText| + 1;
            j <= |json| && DictLoop(rest, json, i, res)
            == var val := rest(j);
               if val.eaten == 0 then Parsed(Dict(res), 0)
               else DictLoop(rest, json, Skip(json, j + val.eaten, ','), res[key := val.obj])
  {
    hide At, DictLoop;
    AtFirst(json, i, keyText);
    AtFirst(json, i + |keyText|, ":");
    DictUnfold(rest, json, i, res, Parsed(Str(key), |keyText|));
  }

  lemma DictUnfold(rest: Rest, json: string, i: nat, res: map<string, Json>, key: Parsed)
    requires i < |json| && Within(rest, json) && json[i] != '}'
    requires key == rest(i) && key.eaten > 0 && key.obj.Str?
    ensures DictLoop(rest, json, i, res)
            == var j := Skip(json, i + key.eaten, ':');
               var val := rest(j);
               if val.eaten == 0 then Parsed(Dict(res), 0)
               else DictLoop(rest, json, Skip(json, j + val.eaten, ','), res[key.obj.s := val.obj])
  {
  }

  /** One whole turn. */
  lemma DictTurn(rest: Rest, json: string, i: nat, res: map<string, Json>, keyText: string, key: string,
                 valText: string, v: Json, comma: string, tail: string)
    requires 1 <= i && Within(rest, json) && At(json, i, keyText) && At(json, i + |keyText|, ":")
    requires At(json, i + |keyText| + 1, valText) && At(json, i + |keyText| + 1 + |valText|, comma)
    requires At(json, i + |keyText| + 1 + |valText| + |comma|, tail)
    requires Reads(rest, json, keyText, Str(key)) && Reads(rest, json, valText, v)
    requires comma == "," || (comma == "" && tail != [] && tail[0] == '}')
    ensures DictLoop(rest, json, i, res)
            == DictLoop(rest, json, i + |keyText| + 1 + |valText| + |comma|, res[key := v])
  {
    hide DictLoop, At;
    var j := i + |keyText| + 1;
    DictStep(rest, json, i, res, keyText, key);
    CommaStands(json, j + |valText|, comma, tail);
    assert rest(j) == Parsed(v, |valText|);
  }

  lemma {:induction false} EntriesReadBack(rest: Rest, json: string, i: nat, entries: seq<Entry>,
                                           res: map<string, Json>)
    requires 1 <= i && Within(rest, json) && At(json, i, RenderEntries(entries))
    requires forall x | x in entries :: EntryReads(rest, json, x)
    ensures DictLoop(rest, json, i, res) == Parsed(Dict(Entries(entries, res)), i + |RenderEntries(entries)|)
    decreases |entries|
  {
    hide Render, Value, Quoted, RenderEntry, EntryReads, At, DictLoop;
    if entries == [] {
      ClosingBrace(rest, json, i, res);
    } else {
      var x, more := entries[0], entries[1..];
      var j := EntryTurn(rest, json, i, entries, res);
      EntriesReadBack(rest, json, j, more, res[x.key := Value(x.doc)]);
    }
  }

  lemma ClosingBrace(rest: Rest, json: string, i: nat, res: map<string, Json>)
    requires Within(rest, json) && At(json, i, "}")
    ensures DictLoop(rest, json, i, res) == Parsed(Dict(res), i + 1)
  {
    AtFirst(json, i, "}");
  }

  lemma EntryTurn(rest: Rest, json: string, i: nat, entries: seq<Entry>, res: map<string, Json>) returns (j: nat)
    requires 1 <= i && Within(rest, json) && entries != [] && At(json, i, RenderEntries(entries))
    requires EntryReads(rest, json, entries[0])
    ensures j <= |json| && j + |RenderEntries(entries[1..])| == i + |RenderEntries(entries)| && i <= j
    ensures At(json, j, RenderEntries(entries[1..]))
    ensures DictLoop(rest, json, i, res) == DictLoop(rest, json, j, res[entries[0].key := Value(entries[0].doc)])
  {
    hide Render, Value, Quoted, RenderEntry, Reads, DictLoop, RenderEntries, At, Comma;
    var x, more := entries[0], entries[1..];
    var key, val := x.before + Quoted(x.key), x.between + Render(x.doc);
    var comma, tail := Comma(more), RenderEntries(more);
    EntriesSplit(json, i, entries, key, val, comma, tail);
    CommaOrBrace(more);
    DictTurn(rest, json, i, res, key, x.key, val, Value(x.doc), comma, tail);
    j := i + |key| + 1 + |val| + |comma|;
  }

  lemma CommaOrBrace(entries: seq<Entry>)
    ensures if entries == [] then Comma(entries) == "" && RenderEntries(entries) == "}" else Comma(entries) == ","
  {
  }

  lemma EntriesSplit(json: string, i: nat, entries: seq<Entry>, key: string, val: string, comma: string, tail: string)
    requires entries != [] && At(json, i, RenderEntries(entries))
    requires key == entries[0].before + Quoted(entries[0].key) && val == entries[0].between + Render(entries[0].doc)
    requires comma == Comma(entries[1..]) && tail == RenderEntries(entries[1..])
    ensures At(json, i, key) && At(json, i + |key|, ":") && At(json, i + |key| + 1, val)
    ensures At(json, i + |key| + 1 + |val|, comma) && At(json, i + |key| + 1 + |val| + |comma|, tail)
    ensures |RenderEntries(entries)| == |key| + 1 + |val| + |comma| + |tail|
    ensures i + |RenderEntries(entries)| <= |json|
  {
    hide *;
    AtFits(json, i, RenderEntries(entries));
    EntriesParts(entries, key, val, comma, tail);
    PartsSplit(json, i, key, val, comma, tail);
  }

  lemma PartsSplit(json: string, i: nat, key: string, val: string, comma: string, tail: string)
    requires At(json, i, key + ":" + val + comma + tail)
    ensures At(json, i, key) && At(json, i + |key|, ":") && At(json, i + |key| + 1, val)
    ensures At(json, i + |key| + 1 + |val|, comma) && At(json, i + |key| + 1 + |val| + |comma|, tail)
  {
    hide *;
    AtSplit(json, i, key + ":" + val + comma, tail);
    AtSplit(json, i, key + ":" + val, comma);
    AtSplit(json, i, key + ":", val);
    AtSplit(json, i, key, ":");
  }

  lemma EntriesParts(entries: seq<Entry>, key: string, val: string, comma: string, tail: string)
    requires entries != []
    requires key == entries[0].before + Quoted(entries[0].key) && val == entries[0].between + Render(entries[0].doc)
    requires comma == Comma(entries[1..]) && tail == RenderEntries(entries[1..])
    ensures RenderEntries(entries) == key + ":" + val + comma + tail
  {
    hide Render, Quoted;
    EntrySplit(entries[0], key, val);
  }

  lemma EntrySplit(x: Entry, key: string, val: string)
    requires key == x.before + Quoted(x.key) && val == x.between + Render(x.doc)
    ensures RenderEntry(x) == key + ":" + val
  {
    hide Render, Quoted;
  }
}
