/** What the reader forgives: commas and colons that are missing or to spare, and lists and dicts
    that the end of the text cuts off. */
module JsonLoose {
  import opened Decimal
  import opened Json
  import opened JsonRender

  /** An element with what stands around it. */
  datatype Slot = Slot(space: string, doc: Doc, comma: bool)

  function CommaIf(b: bool): string {
    if b then "," else ""
  }

  function ListText(slots: seq<Slot>, closed: bool): string {
    if slots == [] then if closed then "]" else ""
    else slots[0].space + Render(slots[0].doc) + (CommaIf(slots[0].comma) + ListText(slots[1..], closed))
  }

  /** Without a comma, white space keeps two elements apart. */
  ghost predicate KeptApart(slots: seq<Slot>) {
    && (forall x | x in slots :: AllSpaces(x.space) && WellSpaced(x.doc))
    && (forall i | 0 <= i < |slots| - 1 :: slots[i].comma || slots[i + 1].space != "")
  }

  function Elements(slots: seq<Slot>): seq<Json> {
    if slots == [] then [] else [Value(slots[0].doc)] + Elements(slots[1..])
  }

  /** What comes next ends a number, and is a comma exactly if there is one. */
  lemma NextEnds(slots: seq<Slot>, closed: bool)
    requires slots != [] && KeptApart(slots)
    ensures var next := CommaIf(slots[0].comma) + ListText(slots[1..], closed);
            next != "" ==> !IsDigit(next[0]) && next[0] !in {'.', 'e', 'E'} && (next[0] == ',' <==> slots[0].comma)
    ensures KeptApart(slots[1..])
  {
    if |slots| > 1 {
      var x := slots[1];
      assert slots[1..][0] == x && x in slots;
      assert x.space != "" ==> x.space[0] in x.space;
    }
  }

  lemma ValueTurn(rest: Rest, json: string, j: nat, valText: string, v: Json, comma: bool, tail: string)
    requires 1 <= j && Reads(rest, json, valText, v) && At(json, j, valText)
    requires At(json, j + |valText|, CommaIf(comma) + tail) && j + |valText| + |CommaIf(comma) + tail| == |json|
    requires var next := CommaIf(comma) + tail;
             next != "" ==> !IsDigit(next[0]) && next[0] !in {'.', 'e', 'E'} && (next[0] == ',' <==> comma)
    ensures rest(j) == Parsed(v, |valText|) && |valText| > 0 && j + |valText| <= |json|
    ensures Skip(json, j + |valText|, ',') == j + |valText| + |CommaIf(comma)|
  {
    if CommaIf(comma) + tail != "" {
      AtFirst(json, j + |valText|, CommaIf(comma) + tail);
    }
  }

  lemma OneTurn(rest: Rest, json: string, i: nat, res: seq<Json>, text: string, v: Json, comma: bool, tail: string)
    requires 1 <= i && Within(rest, json) && Reads(rest, json, text, v)
    requires i + |text| + |CommaIf(comma) + tail| == |json|
    requires At(json, i, text) && At(json, i + |text|, CommaIf(comma) + tail)
    requires var next := CommaIf(comma) + tail;
             next != "" ==> !IsDigit(next[0]) && next[0] !in {'.', 'e', 'E'} && (next[0] == ',' <==> comma)
    ensures var j := i + |text| + |CommaIf(comma)|;
            j <= |json| && At(json, j, tail) && ListLoop(rest, json, i, res) == ListLoop(rest, json, j, res + [v])
  {
    hide *;
    ValueTurn(rest, json, i, text, v, comma, tail);
    AtSplit(json, i + |text|, CommaIf(comma), tail);
    AtFits(json, i + |text| + |CommaIf(comma)|, tail);
    NotClosing(rest, json, i, text, v);
    ListUnfold(rest, json, i, res, Parsed(v, |text|));
  }

  lemma NotClosing(rest: Rest, json: string, i: nat, text: string, v: Json)
    requires Reads(rest, json, text, v) && At(json, i, text)
    ensures i < |json| && json[i] != ']'
  {
    AtFirst(json, i, text);
  }

  lemma ListUnfold(rest: Rest, json: string, i: nat, res: seq<Json>, item: Parsed)
    requires i < |json| && Within(rest, json) && json[i] != ']' && item == rest(i) && item.eaten > 0
    ensures ListLoop(rest, json, i, res)
            == ListLoop(rest, json, Skip(json, i + item.eaten, ','), res + [item.obj])
  {
  }

  ghost predicate SlotsRead(rest: Rest, json: string, slots: seq<Slot>) {
    forall x | x in slots :: Reads(rest, json, x.space + Render(x.doc), Value(x.doc))
  }

  lemma SlotsReadParts(rest: Rest, json: string, slots: seq<Slot>)
    requires slots != [] && SlotsRead(rest, json, slots)
    ensures Reads(rest, json, slots[0].space + Render(slots[0].doc), Value(slots[0].doc))
    ensures SlotsRead(rest, json, slots[1..])
  {
    hide Reads, Render, Value;
    assert slots[0] in slots;
  }

  lemma ListTextParts(json: string, i: nat, slots: seq<Slot>, closed: bool)
    requires slots != [] && At(json, i, ListText(slots, closed))
    ensures var text := slots[0].space + Render(slots[0].doc);
            var next := CommaIf(slots[0].comma) + ListText(slots[1..], closed);
            At(json, i, text) && At(json, i + |text|, next) && |ListText(slots, closed)| == |text| + |next|
  {
    hide At, Render, CommaIf;
    AtSplit(json, i, slots[0].space + Render(slots[0].doc), CommaIf(slots[0].comma) + ListText(slots[1..], closed));
  }

  lemma {:induction false} SlotsAreRead(rest: Rest, json: string, i: nat, slots: seq<Slot>, closed: bool,
                                        res: seq<Json>)
    requires 1 <= i && Within(rest, json) && KeptApart(slots) && SlotsRead(rest, json, slots)
    requires At(json, i, ListText(slots, closed)) && i + |ListText(slots, closed)| == |json|
    ensures ListLoop(rest, json, i, res) == Parsed(Array(res + Elements(slots)), |json|)
    decreases |slots|
  {
    hide Render, Value, At, ListLoop, KeptApart, CommaIf, SlotsRead, ListText, Within;
    if slots == [] {
      NoText(closed);
      ListEnds(rest, json, i, res, closed);
      assert res + [] == res;
    } else {
      var x, more := slots[0], slots[1..];
      var text := x.space + Render(x.doc);
      NextEnds(slots, closed);
      SlotsReadParts(rest, json, slots);
      ListTextParts(json, i, slots, closed);
      OneTurn(rest, json, i, res, text, Value(x.doc), x.comma, ListText(more, closed));
      SlotsAreRead(rest, json, i + |text| + |CommaIf(x.comma)|, more, closed, res + [Value(x.doc)]);
      Regrouped(res, Value(x.doc), Elements(more));
    }
  }

  lemma NoText(closed: bool)
    ensures ListText([], closed) == if closed then "]" else ""
  {
  }

  lemma Regrouped(res: seq<Json>, v: Json, more: seq<Json>)
    ensures res + [v] + more == res + ([v] + more)
  {
  }

  lemma ListEnds(rest: Rest, json: string, i: nat, res: seq<Json>, closed: bool)
    requires Within(rest, json) && At(json, i, if closed then "]" else "")
    requires i + (if closed then 1 else 0) == |json|
    ensures ListLoop(rest, json, i, res) == Parsed(Array(res), |json|)
  {
    if closed {
      AtFirst(json, i, "]");
    }
  }

  /** A list is read as its elements whether or not commas stand between them or behind the last,
      and whether or not it is closed. */
  lemma LooseListReadsBack(fits: DoubleRange, slots: seq<Slot>, closed: bool)
    requires KeptApart(slots)
    ensures var json := "[" + ListText(slots, closed); Parse(fits, json) == Parsed(Array(Elements(slots)), |json|)
  {
    hide Parse, Render, Value, Reads;
    var json := "[" + ListText(slots, closed);
    forall x | x in slots ensures Reads(RestOf(fits, json), json, x.space + Render(x.doc), Value(x.doc)) {
      DocReads(fits, json, x.space, x.doc);
    }
    assert At(json, 1, ListText(slots, closed));
    ParseContainer(fits, json);
    SlotsAreRead(RestOf(fits, json), json, 1, slots, closed, []);
    assert [] + Elements(slots) == Elements(slots);
  }

  // ---------- Dicts ----------

  datatype Pair = Pair(before: string, key: string, colon: bool, between: string, doc: Doc, comma: bool)

  function ColonIf(b: bool): string {
    if b then ":" else ""
  }

  function DictText(pairs: seq<Pair>, closed: bool): string {
    if pairs == [] then if closed then "}" else ""
    else
      var x := pairs[0];
      x.before + Quoted(x.key)
      + (ColonIf(x.colon) + (x.between + Render(x.doc) + (CommaIf(x.comma) + DictText(pairs[1..], closed))))
  }

  /** Without a colon, white space stands before the value. */
  ghost predicate Spaced(pairs: seq<Pair>) {
    forall x | x in pairs ::
      AllSpaces(x.before) && AllSpaces(x.between) && WellSpaced(x.doc) && (x.colon || x.between != "")
  }

  function Assigned(pairs: seq<Pair>, m: map<string, Json>): map<string, Json> {
    if pairs == [] then m else Assigned(pairs[1..], m[pairs[0].key := Value(pairs[0].doc)])
  }

  lemma NextPairEnds(pairs: seq<Pair>, closed: bool)
    requires pairs != [] && Spaced(pairs)
    ensures var next := CommaIf(pairs[0].comma) + DictText(pairs[1..], closed);
            next != "" ==> !IsDigit(next[0]) && next[0] !in {'.', 'e', 'E'} && (next[0] == ',' <==> pairs[0].comma)
    ensures Spaced(pairs[1..])
  {
    hide Render;
    if |pairs| > 1 {
      var x := pairs[1];
      assert pairs[1..][0] == x && x in pairs;
      assert x.before != "" ==> x.before[0] in x.before;
      assert Quoted(x.key)[0] == '"';
    }
  }

  lemma KeyTurn(rest: Rest, json: string, i: nat, keyText: string, key: string, colon: bool, valText: string)
    requires 1 <= i && Reads(rest, json, keyText, Str(key)) && valText != "" && (colon || valText[0] != ':')
    requires At(json, i, keyText) && At(json, i + |keyText|, ColonIf(colon) + valText)
    requires !colon ==> !IsDigit(valText[0]) && valText[0] !in {'.', 'e', 'E'}
    ensures i < |json| && json[i] != '}' && rest(i) == Parsed(Str(key), |keyText|) && i + |keyText| <= |json|
    ensures Skip(json, i + |keyText|, ':') == i + |keyText| + |ColonIf(colon)|
  {
    AtFirst(json, i, keyText);
    AtFirst(json, i + |keyText|, ColonIf(colon) + valText);
  }

  /** One turn of the dict loop. */
  lemma OnePair(rest: Rest, json: string, i: nat, res: map<string, Json>, keyText: string, key: string, colon: bool,
                valText: string, v: Json, comma: bool, tail: string)
    requires 1 <= i && Within(rest, json) && Reads(rest, json, keyText, Str(key)) && Reads(rest, json, valText, v)
    requires valText != "" && valText[0] != ':' && keyText != ""
    requires !colon ==> !IsDigit(valText[0]) && valText[0] !in {'.', 'e', 'E'}
    requires var text := keyText + (ColonIf(colon) + (valText + (CommaIf(comma) + tail)));
             At(json, i, text) && i + |text| == |json|
    requires var next := CommaIf(comma) + tail;
             next != "" ==> !IsDigit(next[0]) && next[0] !in {'.', 'e', 'E'} && (next[0] == ',' <==> comma)
    ensures var j := i + |keyText| + |ColonIf(colon)| + |valText| + |CommaIf(comma)|;
            j <= |json| && At(json, j, tail) && j + |tail| == |json|
            && DictLoop(rest, json, i, res) == DictLoop(rest, json, j, res[key := v])
  {
    hide *;
    PairParts(json, i, keyText, ColonIf(colon), valText, CommaIf(comma), tail);
    KeyTurn(rest, json, i, keyText, key, colon, valText);
    ValueTurn(rest, json, i + |keyText| + |ColonIf(colon)|, valText, v, comma, tail);
    DictUnfold(rest, json, i, res, Parsed(Str(key), |keyText|));
  }

  lemma PairParts(json: string, i: nat, a: string, b: string, c: string, d: string, e: string)
    requires At(json, i, a + (b + (c + (d + e))))
    ensures At(json, i, a) && At(json, i + |a|, b + c) && At(json, i + |a| + |b|, c)
    ensures At(json, i + |a| + |b| + |c|, d + e) && At(json, i + |a| + |b| + |c| + |d|, e)
    ensures |a + (b + (c + (d + e)))| == |a| + |b| + |c| + |d| + |e|
    ensures i + |a| + |b| + |c| + |d| + |e| <= |json| && |d + e| == |d| + |e|
  {
    hide At;
    AtFits(json, i, a + (b + (c + (d + e))));
    AtSplit(json, i, a, b + (c + (d + e)));
    assert b + (c + (d + e)) == (b + c) + (d + e);
    AtSplit(json, i + |a|, b + c, d + e);
    AtSplit(json, i + |a|, b, c);
    AtSplit(json, i + |a| + |b| + |c|, d, e);
  }

  lemma PairStarts(x: Pair)
    requires AllSpaces(x.before) && AllSpaces(x.between) && (x.colon || x.between != "")
    ensures var val := x.between + Render(x.doc);
            val != "" && val[0] != ':' && (!x.colon ==> !IsDigit(val[0]) && val[0] !in {'.', 'e', 'E'})
    ensures x.before + Quoted(x.key) != ""
  {
    FirstChar(x.doc);
    assert x.between != "" ==> x.between[0] in x.between;
  }

  lemma {:induction false} PairsAreRead(rest: Rest, json: string, i: nat, pairs: seq<Pair>, closed: bool,
                                        res: map<string, Json>)
    requires 1 <= i && Within(rest, json) && Spaced(pairs)
    requires At(json, i, DictText(pairs, closed)) && i + |DictText(pairs, closed)| == |json|
    requires forall x | x in pairs ::
               Reads(rest, json, x.before + Quoted(x.key), Str(x.key))
               && Reads(rest, json, x.between + Render(x.doc), Value(x.doc))
    ensures DictLoop(rest, json, i, res) == Parsed(Dict(Assigned(pairs, res)), |json|)
    decreases |pairs|
  {
    hide Render, Value, Quoted, Reads, At, DictLoop, AllSpaces;
    if pairs == [] {
      DictEnds(rest, json, i, res, closed);
    } else {
      var x, more := pairs[0], pairs[1..];
      var key, val, tail := x.before + Quoted(x.key), x.between + Render(x.doc), DictText(more, closed);
      NextPairEnds(pairs, closed);
      assert x in pairs;
      PairStarts(x);
      OnePair(rest, json, i, res, key, x.key, x.colon, val, Value(x.doc), x.comma, tail);
      var j := i + |key| + |ColonIf(x.colon)| + |val| + |CommaIf(x.comma)|;
      PairsAreRead(rest, json, j, more, closed, res[x.key := Value(x.doc)]);
    }
  }

  lemma DictEnds(rest: Rest, json: string, i: nat, res: map<string, Json>, closed: bool)
    requires Within(rest, json) && At(json, i, if closed then "}" else "")
    requires i + (if closed then 1 else 0) == |json|
    ensures DictLoop(rest, json, i, res) == Parsed(Dict(res), |json|)
  {
    if closed {
      AtFirst(json, i, "}");
    }
  }

  /** The same for a dict, whose colons may be missing too: later pairs overwrite earlier ones. */
  lemma LooseDictReadsBack(fits: DoubleRange, pairs: seq<Pair>, closed: bool)
    requires Spaced(pairs)
    ensures var json := "{" + DictText(pairs, closed);
            Parse(fits, json) == Parsed(Dict(Assigned(pairs, map[])), |json|)
  {
    hide Parse, Render, Value, Reads, Quoted;
    var json := "{" + DictText(pairs, closed);
    forall x | x in pairs
      ensures Reads(RestOf(fits, json), json, x.before + Quoted(x.key), Str(x.key))
      ensures Reads(RestOf(fits, json), json, x.between + Render(x.doc), Value(x.doc))
    {
      KeyReads(fits, json, x.before, x.key);
      DocReads(fits, json, x.between, x.doc);
    }
    assert At(json, 1, DictText(pairs, closed));
    ParseContainer(fits, json);
    PairsAreRead(RestOf(fits, json), json, 1, pairs, closed, map[]);
  }

  // ---------- What cannot be read ----------

  /** A character that begins no value. */
  predicate BeginsNothing(c: char) {
    !IsSpace(c) && !IsDigit(c) && c !in {'+', '-', '"', '[', '{', ']', '}', ','}
  }

  lemma NothingThere(fits: DoubleRange, json: string, i: nat)
    requires 1 <= i < |json| && BeginsNothing(json[i])
    ensures RestOf(fits, json)(i) == NOTHING
  {
    assert json[i..][0] == json[i] && Spaces(json[i..]) == 0;
  }

  /** A list ends where something cannot be read, with what was read before, and this is left. A dict
      is then given up, with nothing eaten, and so it is if a key is no string. */
  lemma UnreadableEnds(fits: DoubleRange, x: Doc, key: string, c: char, more: string)
    requires WellSpaced(x) && BeginsNothing(c)
    ensures Parse(fits, "[" + [c] + more) == Parsed(Array([]), 1)
    ensures var before := "[" + Render(x) + ",";
            Parse(fits, before + [c] + more) == Parsed(Array([Value(x)]), |before|)
    ensures Parse(fits, "{" + [c] + more) == Parsed(Dict(map[]), 0)
    ensures Parse(fits, "{" + Quoted(key) + ":" + [c] + more) == Parsed(Dict(map[]), 0)
    ensures !x.DStr? ==> Parse(fits, "{" + Render(x) + ":" + more).eaten == 0
  {
    hide *;
    FirstUnreadable(fits, c, more);
    SecondUnreadable(fits, x, c, more);
    ValueUnreadable(fits, key, c, more);
    if !x.DStr? {
      KeyIsNoString(fits, x, more);
    }
  }

  lemma FirstUnreadable(fits: DoubleRange, c: char, more: string)
    requires BeginsNothing(c)
    ensures Parse(fits, "[" + [c] + more) == Parsed(Array([]), 1)
    ensures Parse(fits, "{" + [c] + more) == Parsed(Dict(map[]), 0)
  {
    hide Parse, RestOf;
    var list, dict := "[" + [c] + more, "{" + [c] + more;
    ParseContainer(fits, list);
    ParseContainer(fits, dict);
    NothingThere(fits, list, 1);
    NothingThere(fits, dict, 1);
  }

  lemma SecondUnreadable(fits: DoubleRange, x: Doc, c: char, more: string)
    requires WellSpaced(x) && BeginsNothing(c)
    ensures var before := "[" + Render(x) + ",";
            Parse(fits, before + [c] + more) == Parsed(Array([Value(x)]), |before|)
  {
    hide Parse, RestOf, Render, Value, Reads, ListLoop, BeginsNothing;
    var text := Render(x);
    var json := "[" + text + "," + [c] + more;
    var i := |text| + 2;
    ParseContainer(fits, json);
    assert At(json, 1, text) && At(json, 1 + |text|, ",") && At(json, i, [c] + more);
    DocReads(fits, json, "", x);
    assert "" + text == text && [] + [Value(x)] == [Value(x)];
    ListStep(RestOf(fits, json), json, 1, [], text, Value(x), ",", [c] + more);
    NothingThere(fits, json, i);
    Stops(RestOf(fits, json), json, i, [Value(x)], c);
  }

  lemma Stops(rest: Rest, json: string, i: nat, res: seq<Json>, c: char)
    requires i < |json| && Within(rest, json) && json[i] == c && BeginsNothing(c) && rest(i) == NOTHING
    ensures ListLoop(rest, json, i, res) == Parsed(Array(res), i)
  {
  }

  lemma ValueUnreadable(fits: DoubleRange, key: string, c: char, more: string)
    requires BeginsNothing(c)
    ensures Parse(fits, "{" + Quoted(key) + ":" + [c] + more) == Parsed(Dict(map[]), 0)
  {
    hide Parse, RestOf, Reads, DictLoop, BeginsNothing, At, Escape;
    var text := Quoted(key);
    var json := "{" + text + ":" + [c] + more;
    ParseContainer(fits, json);
    assert json == "{" + text + ":" + ([c] + more);
    KeyStands(json, text, [c] + more);
    KeyReads(fits, json, "", key);
    assert "" + text == text;
    KeyTurn(RestOf(fits, json), json, 1, text, key, true, [c] + more);
    NothingThere(fits, json, |text| + 2);
    DictUnfold(RestOf(fits, json), json, 1, map[], Parsed(Str(key), |text|));
  }

  lemma KeyStands(json: string, text: string, tail: string)
    requires json == "{" + text + ":" + tail
    ensures At(json, 1, text) && At(json, 1 + |text|, ":" + tail)
  {
  }

  lemma KeyIsNoString(fits: DoubleRange, x: Doc, more: string)
    requires WellSpaced(x) && !x.DStr?
    ensures Parse(fits, "{" + Render(x) + ":" + more).eaten == 0
  {
    hide Parse, RestOf, Render, Value, DictLoop;
    var text := Render(x);
    var json := "{" + text + ":" + more;
    ParseContainer(fits, json);
    assert At(json, 1, text) && EndsNumber(json, 1 + |text|);
    DocReads(fits, json, "", x);
    assert "" + text == text;
    NoString(x);
    KeyStops(RestOf(fits, json), json, text, Value(x));
  }

  lemma NoString(x: Doc)
    requires !x.DStr?
    ensures !Value(x).Str?
  {
  }

  lemma KeyStops(rest: Rest, json: string, text: string, v: Json)
    requires Within(rest, json) && Reads(rest, json, text, v) && !v.Str?
    requires At(json, 1, text) && EndsNumber(json, 1 + |text|)
    ensures DictLoop(rest, json, 1, map[]).eaten == 0
  {
    AtFirst(json, 1, text);
  }

  /** Which characters may begin a value: six of white space before it, digits, signs and three
      brackets and quotes. At any other nothing is read. */
  lemma FirstCharacters(fits: DoubleRange, c: char, x: Doc, more: string)
    requires WellSpaced(x)
    ensures c in {' ', '\n', '\r', '\t', 11 as char, 12 as char} ==>
              Parse(fits, [c] + Render(x)) == Parsed(Value(x), 1 + |Render(x)|)
    ensures (c !in {' ', '\n', '\r', '\t', 11 as char, 12 as char, '+', '-', '"', '[', '{'} && !('0' <= c <= '9')) ==>
              Parse(fits, [c] + more) == NOTHING
  {
    if c in {' ', '\n', '\r', '\t', 11 as char, 12 as char} {
      SpaceFirst(fits, c, x);
    } else if !('0' <= c <= '9') && c !in {'+', '-', '"', '[', '{'} {
      assert Spaces([c] + more) == 0;
    }
  }

  lemma SpaceFirst(fits: DoubleRange, c: char, x: Doc)
    requires WellSpaced(x) && IsSpace(c)
    ensures Parse(fits, [c] + Render(x)) == Parsed(Value(x), 1 + |Render(x)|)
  {
    hide Parse, Render, Value;
    var text := Render(x);
    var json := [c] + text;
    FirstChar(x);
    assert json[1..] == text && At(json, 0, [c]) && At(text, 0, text);
    DocReadsBack(fits, text, x);
    ParseAfterSpaces(fits, json, [c]);
  }
}
