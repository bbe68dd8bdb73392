/** The printer of basic/jsontest/print.h, and exactly what the reader makes of its output. */
module JsonPrint {
  import opened Decimal
  import opened Json
  import opened JsonRender

  /** A `JSONObject` in memory, its dict entries in the order in which the hash table yields
      them. Doubles, whose text depends on the stream's precision, are not in it. */
  datatype Tree =
    | TNull
    | TBool(b: bool)
    | TInt(n: int32)
    | TStr(s: string)
    | TList(items: seq<Tree>)
    | TDict(fields: seq<Field>)

  datatype Field = Field(key: string, value: Tree)

  /** The variant printer: lists print with braces, like every iterable that is not a map. */
  function Print(t: Tree): string
    decreases t, 0
  {
    match t
    case TNull => "nullptr"
    case TBool(b) => if b then "true" else "false"
    case TInt(n) => IntText(n)
    case TStr(s) => Quoted(s)
    case TList(items) => "{" + PrintItems(items, false) + "}"
    case TDict(fields) => "{" + PrintFields(fields, false) + "}"
  }

  /** `once`: an element has been printed before these. */
  function PrintItems(items: seq<Tree>, once: bool): string
    decreases items, 1
  {
    if items == [] then "" else
    Separator(once) + Print(items[0]) + PrintItems(items[1..], true)
  }

  function PrintFields(fields: seq<Field>, once: bool): string
    decreases fields, 1
  {
    if fields == [] then "" else
    Separator(once) + PrintField(fields[0]) + PrintFields(fields[1..], true)
  }

  function PrintField(f: Field): string
    decreases f, 1
  {
    Quoted(f.key) + ": " + Print(f.value)
  }

  function Separator(once: bool): string {
    if once then ", " else ""
  }

  // ---------- What is printed ----------

  /** The parts with a comma and a space between them. */
  function Joined(parts: seq<string>): string {
    if parts == [] then "" else if |parts| == 1 then parts[0] else parts[0] + ", " + Joined(parts[1..])
  }

  lemma JoinedIs(a: string, parts: seq<string>)
    ensures Joined([]) == "" && Joined([a]) == a
    ensures parts != [] ==> Joined([a] + parts) == a + ", " + Joined(parts)
  {
    assert ([a] + parts)[1..] == parts;
  }

  function Prints(items: seq<Tree>): (parts: seq<string>)
    ensures |parts| == |items| && forall i | 0 <= i < |items| :: parts[i] == Print(items[i])
    decreases items, 1
  {
    if items == [] then [] else [Print(items[0])] + Prints(items[1..])
  }

  function FieldPrints(fields: seq<Field>): (parts: seq<string>)
    ensures |parts| == |fields|
    ensures forall i | 0 <= i < |fields| :: parts[i] == Quoted(fields[i].key) + ": " + Print(fields[i].value)
    decreases fields, 1
  {
    if fields == [] then [] else
    [Quoted(fields[0].key) + ": " + Print(fields[0].value)] + FieldPrints(fields[1..])
  }

  lemma {:induction false} ItemsAreJoined(items: seq<Tree>, once: bool)
    ensures PrintItems(items, once) == (if once && items != [] then ", " else "") + Joined(Prints(items))
    decreases |items|
  {
    hide Print;
    if items != [] {
      var parts := Prints(items);
      assert parts[1..] == Prints(items[1..]) && parts == [parts[0]] + parts[1..];
      ItemsAreJoined(items[1..], true);
      JoinedIs(parts[0], parts[1..]);
      Commas(Separator(once), parts[0], Joined(parts[1..]));
    }
  }

  lemma {:induction false} FieldsAreJoined(fields: seq<Field>, once: bool)
    ensures PrintFields(fields, once) == (if once && fields != [] then ", " else "") + Joined(FieldPrints(fields))
    decreases |fields|
  {
    hide Print, Quoted;
    if fields != [] {
      var parts := FieldPrints(fields);
      assert parts[1..] == FieldPrints(fields[1..]) && parts == [parts[0]] + parts[1..];
      FieldsAreJoined(fields[1..], true);
      JoinedIs(parts[0], parts[1..]);
      Commas(Separator(once), parts[0], Joined(parts[1..]));
    }
  }

  lemma Commas(before: string, part: string, more: string)
    ensures before + part + (", " + more) == before + (part + ", " + more)
    ensures before + part + ("" + "") == before + part
  {
  }

  /** Lists and dicts are their elements, joined, in braces. */
  lemma PrintedForms(t: Tree)
    ensures Print(TNull) == "nullptr" && Print(TBool(true)) == "true" && Print(TBool(false)) == "false"
    ensures t.TInt? ==> Print(t) == IntText(t.n)
    ensures t.TList? ==> Print(t) == "{" + Joined(Prints(t.items)) + "}"
    ensures t.TDict? ==> Print(t) == "{" + Joined(FieldPrints(t.fields)) + "}"
  {
    hide Joined, Prints, FieldPrints, PrintItems, PrintFields, IntText, Quoted;
    match t
    case TList(items) => ItemsAreJoined(items, false);
    case TDict(fields) => FieldsAreJoined(fields, false);
    case _ =>
  }

  /** A printed string is its characters in double quotes, with a backslash before each double quote
      and backslash. */
  lemma {:induction false} PrintedString(a: string, c: char)
    ensures Print(TStr("")) == "\"\""
    ensures var quoted := Print(TStr(a));
            && |quoted| >= 2
            && Print(TStr(a + [c])) == quoted[..|quoted| - 1] + (if c in {'"', '\\'} then ['\\', c] else [c]) + "\""
    decreases |a|
  {
    EscapeSnoc(a, c);
    var quoted := Print(TStr(a));
    assert quoted[..|quoted| - 1] == "\"" + Escape(a);
  }

  lemma {:induction false} EscapeSnoc(a: string, c: char)
    ensures Escape(a + [c]) == Escape(a) + if c in {'"', '\\'} then ['\\', c] else [c]
    decreases |a|
  {
    if a == [] {
      assert a + [c] == [c] && [c][1..] == [] && Escape([]) == [];
    } else {
      assert (a + [c])[1..] == a[1..] + [c];
      EscapeSnoc(a[1..], c);
    }
  }

  /** The printed value itself. */
  function ToJson(t: Tree): Json
    decreases t, 0
  {
    match t
    case TNull => Null
    case TBool(b) => Bool(b)
    case TInt(n) => Int(n)
    case TStr(s) => Str(s)
    case TList(items) => Array(ItemsToJson(items))
    case TDict(fields) => Dict(AssignAll(FieldsToJson(fields), map[]))
  }

  function ItemsToJson(items: seq<Tree>): seq<Json>
    decreases items, 1
  {
    if items == [] then [] else [ToJson(items[0])] + ItemsToJson(items[1..])
  }

  function FieldsToJson(fields: seq<Field>): seq<Pair>
    decreases fields, 1
  {
    if fields == [] then [] else [Pair(fields[0].key, ToJson(fields[0].value))] + FieldsToJson(fields[1..])
  }

  datatype Pair = Pair(key: string, value: Json)

  /** `insert_or_assign`, pair after pair. */
  function AssignAll(pairs: seq<Pair>, m: map<string, Json>): map<string, Json> {
    if pairs == [] then m else AssignAll(pairs[1..], m[pairs[0].key := pairs[0].value])
  }

  /** What the reader can get through: no null, no bool, and no list but the empty one. */
  predicate Readable(t: Tree) {
    match t
    case TNull => false
    case TBool(_) => false
    case TList(items) => items == []
    case TDict(fields) => forall f | f in fields :: Readable(f.value)
    case _ => true
  }

  /** What it then reads: an empty list comes back as an empty dict. */
  function Reread(t: Tree): Json
    decreases t, 0
  {
    match t
    case TInt(n) => Int(n)
    case TStr(s) => Str(s)
    case TList(_) => Dict(map[])
    case TDict(fields) => Dict(AssignAll(RereadFields(fields), map[]))
    case _ => Null
  }

  function RereadFields(fields: seq<Field>): seq<Pair>
    decreases fields, 1
  {
    if fields == [] then [] else [Pair(fields[0].key, Reread(fields[0].value))] + RereadFields(fields[1..])
  }

  /** Only ints, strings and dicts. */
  predicate Plain(t: Tree) {
    match t
    case TInt(_) => true
    case TStr(_) => true
    case TDict(fields) => forall f | f in fields :: Plain(f.value)
    case _ => false
  }

  ghost predicate DistinctKeys(t: Tree) {
    match t
    case TList(items) => forall x | x in items :: DistinctKeys(x)
    case TDict(fields) => KeysDiffer(fields) && forall f | f in fields :: DistinctKeys(f.value)
    case _ => true
  }

  ghost predicate KeysDiffer(fields: seq<Field>) {
    forall i, j | 0 <= i < j < |fields| :: fields[i].key != fields[j].key
  }

  // ---------- Reading print.h's output ----------

  /** The dict's text from one turn of the reader's loop to the end. */
  function FieldsText(fields: seq<Field>, once: bool): string {
    if fields == [] then "}" else
    (if once then " " else "") + Quoted(fields[0].key) + ":" + (" " + Print(fields[0].value))
    + Comma(fields[1..]) + FieldsText(fields[1..], true)
  }

  lemma {:induction false} PrintFieldsIsFieldsText(fields: seq<Field>, once: bool)
    ensures PrintFields(fields, once) + "}"
            == (if once && fields != [] then "," else "") + FieldsText(fields, once)
    decreases |fields|
  {
    hide Print, Quoted;
    if fields != [] {
      var f, more := fields[0], fields[1..];
      PrintFieldsIsFieldsText(more, true);
      var space, comma := if once then " " else "", if once then "," else "";
      assert Separator(once) == comma + space;
      Regroup(comma, space, Quoted(f.key), Print(f.value), PrintFields(more, true), Comma(more),
              FieldsText(more, true));
    }
  }

  lemma Regroup(comma: string, space: string, key: string, val: string, printed: string, next: string, tail: string)
    requires printed + "}" == next + tail
    ensures (comma + space) + (key + ": " + val) + printed + "}"
            == comma + (space + key + ":" + (" " + val) + next + tail)
  {
    assert key + ": " + val == key + ":" + (" " + val);
    calc {
      (comma + space) + (key + ": " + val) + printed + "}";
      (comma + space) + (key + ": " + val) + (printed + "}");
      (comma + space) + (key + ":" + (" " + val)) + (next + tail);
      comma + (space + key + ":" + (" " + val) + next + tail);
    }
  }

  lemma PrintStarts(t: Tree)
    ensures Print(t) != [] && !IsSpace(Print(t)[0]) && Print(t)[0] !in {'}', ']', ',', ':'}
  {
    if t.TInt? {
      IntTextStarts(t.n);
    }
  }

  /** The outcome of reading `t` after a space, wherever it stands. Of an unreadable value the
      reader still eats the space, and takes a null or a dict for it. */
  ghost predicate Yields(rest: Rest, json: string, text: string, t: Tree) {
    forall i: nat | 1 <= i && At(json, i, text) && EndsNumber(json, i + |text|) :: YieldsAt(rest, i, text, t)
  }

  ghost predicate YieldsAt(rest: Rest, i: nat, text: string, t: Tree) {
    if Readable(t) then rest(i) == Parsed(Reread(t), |text|)
    else rest(i).eaten == 1 && rest(i + 1).eaten == 0
  }

  ghost predicate FieldYields(rest: Rest, json: string, f: Field) {
    && Reads(rest, json, Quoted(f.key), Str(f.key))
    && Reads(rest, json, " " + Quoted(f.key), Str(f.key))
    && Yields(rest, json, " " + Print(f.value), f.value)
  }

  /** The reader's outcome on print.h's output, whatever the value and whatever follows: a
      readable value is eaten whole, any other is not eaten at all. */
  lemma {:induction false} PrintedOutcome(fits: DoubleRange, json: string, t: Tree)
    requires At(json, 0, Print(t)) && EndsNumber(json, |Print(t)|)
    ensures if Readable(t) then Parse(fits, json) == Parsed(Reread(t), |Print(t)|)
            else Parse(fits, json).eaten == 0
    decreases t, 0
  {
    match t
    case TInt(n) => IntReadsBack(fits, json, n);
    case TStr(s) => StringReadsBack(fits, json, s);
    case TList(items) => PrintedListOutcome(fits, json, items);
    case TDict(fields) => PrintedDictOutcome(fits, json, fields);
    case _ =>
      AtFirst(json, 0, Print(t));
      WordIsNotEaten(fits, json);
  }

  lemma WordIsNotEaten(fits: DoubleRange, json: string)
    requires json != [] && !IsSpace(json[0]) && !IsDigit(json[0]) && json[0] !in {'+', '-', '"', '[', '{'}
    ensures Parse(fits, json).eaten == 0
  {
    assert Spaces(json) == 0;
  }

  lemma {:induction false} FieldValueYields(fits: DoubleRange, json: string, f: Field)
    ensures Yields(RestOf(fits, json), json, " " + Print(f.value), f.value)
    decreases f, 1
  {
    hide Parse, Print, At, Reread;
    var text := Print(f.value);
    forall i: nat | 1 <= i && At(json, i, " " + text) && EndsNumber(json, i + |" " + text|)
      ensures YieldsAt(RestOf(fits, json), i, " " + text, f.value)
    {
      PrintStarts(f.value);
      AtSplit(json, i, " ", text);
      SpacedAt(json, i, " ", text);
      PrintedOutcome(fits, json[i + 1..], f.value);
      ParseUnspaced(fits, json[i..]);
    }
  }

  lemma ParseUnspaced(fits: DoubleRange, json: string)
    requires |json| > 1 && json[0] == ' ' && !IsSpace(json[1])
    ensures var p := Parse(fits, json[1..]);
            Parse(fits, json) == p.(eaten := p.eaten + 1)
  {
    assert At(json, 0, " ");
    ParseAfterSpaces(fits, json, " ");
  }

  lemma {:induction false} AnyFieldYields(fits: DoubleRange, json: string, f: Field)
    ensures FieldYields(RestOf(fits, json), json, f)
    decreases f, 2
  {
    hide Parse, Reads, Yields;
    KeyReads(fits, json, "", f.key);
    assert "" + Quoted(f.key) == Quoted(f.key);
    KeyReads(fits, json, " ", f.key);
    FieldValueYields(fits, json, f);
  }

  lemma {:induction false} PrintedDictOutcome(fits: DoubleRange, json: string, fields: seq<Field>)
    requires At(json, 0, "{" + PrintFields(fields, false) + "}")
    ensures if Readable(TDict(fields))
            then Parse(fits, json) == Parsed(Reread(TDict(fields)), |Print(TDict(fields))|)
            else Parse(fits, json).eaten == 0
    decreases fields, 0
  {
    hide Parse, At, Print, Reread, FieldsText, FieldYields;
    var rest, text := RestOf(fits, json), FieldsText(fields, false);
    forall f | f in fields ensures FieldYields(rest, json, f) {
      AnyFieldYields(fits, json, f);
    }
    DictText(fields, text);
    AtSplit(json, 0, "{", text);
    AtFirst(json, 0, "{" + text);
    ParseContainer(fits, json);
    FieldsOutcome(rest, json, 1, fields, false, map[]);
    assert Reread(TDict(fields)) == Dict(AssignAll(RereadFields(fields), map[])) by {
      RereadDict(fields);
    }
  }

  lemma DictText(fields: seq<Field>, text: string)
    requires text == FieldsText(fields, false)
    ensures "{" + PrintFields(fields, false) + "}" == "{" + text == Print(TDict(fields))
  {
    hide FieldsText, PrintFields;
    PrintFieldsIsFieldsText(fields, false);
    assert "{" + PrintFields(fields, false) + "}" == "{" + (PrintFields(fields, false) + "}");
    assert "" + text == text;
  }

  lemma RereadDict(fields: seq<Field>)
    ensures Reread(TDict(fields)) == Dict(AssignAll(RereadFields(fields), map[]))
  {
  }

  lemma {:induction false} FieldsOutcome(rest: Rest, json: string, i: nat, fields: seq<Field>, once: bool,
                                         res: map<string, Json>)
    requires 1 <= i && Within(rest, json) && At(json, i, FieldsText(fields, once))
    requires forall f | f in fields :: FieldYields(rest, json, f)
    ensures if forall f | f in fields :: Readable(f.value)
            then DictLoop(rest, json, i, res)
                 == Parsed(Dict(AssignAll(RereadFields(fields), res)), i + |FieldsText(fields, once)|)
            else DictLoop(rest, json, i, res).eaten == 0
    decreases |fields|
  {
    hide Print, Reread, Quoted, Readable, FieldYields, At, DictLoop;
    if fields == [] {
      ClosingBrace(rest, json, i, res);
    } else {
      var f, more := fields[0], fields[1..];
      var j := FieldsTurn(rest, json, i, fields, once, res);
      if Readable(f.value) {
        FieldsOutcome(rest, json, j, more, true, res[f.key := Reread(f.value)]);
        assert RereadFields(fields)[1..] == RereadFields(more);
        assert forall x | x in fields :: x == f || x in more;
      } else {
        assert f in fields;
      }
    }
  }

  lemma FieldsTurn(rest: Rest, json: string, i: nat, fields: seq<Field>, once: bool, res: map<string, Json>)
    returns (j: nat)
    requires 1 <= i && Within(rest, json) && At(json, i, FieldsText(fields, once)) && fields != []
    requires FieldYields(rest, json, fields[0])
    ensures j <= |json| && j + |FieldsText(fields[1..], true)| == i + |FieldsText(fields, once)| && i <= j
    ensures At(json, j, FieldsText(fields[1..], true))
    ensures var f := fields[0];
            if Readable(f.value) then
              DictLoop(rest, json, i, res) == DictLoop(rest, json, j, res[f.key := Reread(f.value)])
            else DictLoop(rest, json, i, res).eaten == 0
  {
    hide Print, Reread, Quoted, Readable, DictLoop, Reads, Yields;
    var f, more := fields[0], fields[1..];
    var key, val := (if once then " " else "") + Quoted(f.key), " " + Print(f.value);
    assert once || key == Quoted(f.key);
    var comma, tail := Comma(more), FieldsText(more, true);
    FieldsSplit(json, i, fields, once, key, val, comma, tail);
    PrintStarts(f.value);
    FieldTurn(rest, json, i, res, key, f, val, Print(f.value), comma, tail);
    j := i + |key| + 1 + |val| + |comma|;
    assert At(json, j, tail);
  }

  /** One turn of the dict loop on a printed field. */
  lemma FieldTurn(rest: Rest, json: string, i: nat, res: map<string, Json>, key: string, f: Field,
                  val: string, text: string, comma: string, tail: string)
    requires 1 <= i && Within(rest, json) && At(json, i, key) && At(json, i + |key|, ":")
    requires At(json, i + |key| + 1, val) && At(json, i + |key| + 1 + |val|, comma)
    requires At(json, i + |key| + 1 + |val| + |comma|, tail)
    requires val == " " + text && text != [] && text[0] !in {'}', ','}
    requires Reads(rest, json, key, Str(f.key)) && Yields(rest, json, val, f.value)
    requires comma == "," || (comma == "" && tail != [] && tail[0] == '}')
    ensures if Readable(f.value) then
              DictLoop(rest, json, i, res)
              == DictLoop(rest, json, i + |key| + 1 + |val| + |comma|, res[f.key := Reread(f.value)])
            else DictLoop(rest, json, i, res).eaten == 0
  {
    hide DictLoop, At, Readable, Reread;
    var j := i + |key| + 1;
    DictStep(rest, json, i, res, key, f.key);
    CommaStands(json, j + |val|, comma, tail);
    assert YieldsAt(rest, j, val, f.value);
    if !Readable(f.value) {
      AtSplit(json, j, " ", text);
      AtFirst(json, j + 1, text);
      NoKeyIsEaten(rest, json, j + 1, res[f.key := rest(j).obj]);
    }
  }

  lemma NoKeyIsEaten(rest: Rest, json: string, i: nat, res: map<string, Json>)
    requires i < |json| && Within(rest, json) && json[i] != '}' && rest(i).eaten == 0
    ensures DictLoop(rest, json, i, res).eaten == 0
  {
  }

  lemma FieldsSplit(json: string, i: nat, fields: seq<Field>, once: bool, key: string, val: string,
                    comma: string, tail: string)
    requires fields != [] && At(json, i, FieldsText(fields, once))
    requires key == (if once then " " else "") + Quoted(fields[0].key) && val == " " + Print(fields[0].value)
    requires comma == Comma(fields[1..]) && tail == FieldsText(fields[1..], true)
    ensures At(json, i, key) && At(json, i + |key|, ":") && At(json, i + |key| + 1, val)
    ensures At(json, i + |key| + 1 + |val|, comma) && At(json, i + |key| + 1 + |val| + |comma|, tail)
    ensures |FieldsText(fields, once)| == |key| + 1 + |val| + |comma| + |tail|
  {
    hide At;
    FieldsParts(fields, once, key, val, comma, tail);
    hide Print, Quoted, FieldsText;
    AtSplit(json, i, key + ":" + val + comma, tail);
    AtSplit(json, i, key + ":" + val, comma);
    AtSplit(json, i, key + ":", val);
    AtSplit(json, i, key, ":");
  }

  lemma FieldsParts(fields: seq<Field>, once: bool, key: string, val: string, comma: string, tail: string)
    requires fields != []
    requires key == (if once then " " else "") + Quoted(fields[0].key) && val == " " + Print(fields[0].value)
    requires comma == Comma(fields[1..]) && tail == FieldsText(fields[1..], true)
    ensures FieldsText(fields, once) == key + ":" + val + comma + tail
  {
    hide Print, Quoted;
  }

  lemma {:induction false} PrintedListOutcome(fits: DoubleRange, json: string, items: seq<Tree>)
    requires At(json, 0, "{" + PrintItems(items, false) + "}")
    ensures if items == [] then Parse(fits, json) == Parsed(Dict(map[]), 2) else Parse(fits, json).eaten == 0
    decreases items, 0
  {
    hide Parse, Print, At;
    var rest := RestOf(fits, json);
    if items == [] {
      assert "{" + PrintItems(items, false) + "}" == "{}" == "{" + "}";
      AtFirst(json, 0, "{" + "}");
      AtSplit(json, 0, "{", "}");
      AtFirst(json, 1, "}");
      ParseContainer(fits, json);
    } else {
      var x := items[0];
      var text, tail := Print(x), PrintItems(items[1..], true) + "}";
      assert "{" + PrintItems(items, false) + "}" == "{" + (text + tail);
      AtSplit(json, 0, "{", text + tail);
      AtFirst(json, 0, "{" + (text + tail));
      AtSplit(json, 1, text, tail);
      PrintStarts(x);
      AtFirst(json, 1, text);
      AtShift(json, 1, 0, text);
      assert tail[0] in {',', '}'};
      AtFirst(json, 1 + |text|, tail);
      PrintedOutcome(fits, json[1..], x);
      WordIsNotEaten(fits, json[1 + |text|..]);
      ParseContainer(fits, json);
      NoFieldIsEaten(rest, json, 1 + |text|);
    }
  }

  /** A first element that is not followed by a colon stops the dict loop. */
  lemma NoFieldIsEaten(rest: Rest, json: string, j: nat)
    requires 1 < j < |json| && Within(rest, json) && json[1] != '}' && json[j] != ':'
    requires rest(1).eaten == 0 || rest(1).eaten == j - 1
    requires rest(j).eaten == 0
    ensures DictLoop(rest, json, 1, map[]).eaten == 0
  {
  }

  // ---------- The round trip ----------

  lemma {:induction false} AssignKeeps(pairs: seq<Pair>, m: map<string, Json>, k: string)
    requires k in m && forall p | p in pairs :: p.key != k
    ensures k in AssignAll(pairs, m) && AssignAll(pairs, m)[k] == m[k]
    decreases |pairs|
  {
    if pairs != [] {
      assert pairs[0] in pairs;
      AssignKeeps(pairs[1..], m[pairs[0].key := pairs[0].value], k);
    }
  }

  lemma {:induction false} AssignLookup(pairs: seq<Pair>, m: map<string, Json>, i: nat)
    requires i < |pairs| && forall j | 0 <= i < j < |pairs| :: pairs[i].key != pairs[j].key
    ensures pairs[i].key in AssignAll(pairs, m) && AssignAll(pairs, m)[pairs[i].key] == pairs[i].value
    decreases |pairs|
  {
    var m' := m[pairs[0].key := pairs[0].value];
    if i == 0 {
      AssignKeeps(pairs[1..], m', pairs[0].key);
    } else {
      AssignLookup(pairs[1..], m', i - 1);
    }
  }

  lemma {:induction false} FieldsAt(fields: seq<Field>, i: nat)
    requires i < |fields|
    ensures |FieldsToJson(fields)| == |RereadFields(fields)| == |fields|
    ensures FieldsToJson(fields)[i] == Pair(fields[i].key, ToJson(fields[i].value))
    ensures RereadFields(fields)[i] == Pair(fields[i].key, Reread(fields[i].value))
    decreases |fields|
  {
    if |fields| > 1 {
      FieldsAt(fields[1..], if i == 0 then 0 else i - 1);
    }
  }

  /** Dicts with the same distinct keys in the same order are equal only field by field. */
  lemma DictsDiffer(fields: seq<Field>, i: nat)
    requires KeysDiffer(fields) && i < |fields|
    requires Reread(fields[i].value) != ToJson(fields[i].value)
    ensures AssignAll(RereadFields(fields), map[]) != AssignAll(FieldsToJson(fields), map[])
  {
    hide Reread, ToJson;
    forall j | 0 <= j < |fields|
      ensures |FieldsToJson(fields)| == |RereadFields(fields)| == |fields|
      ensures FieldsToJson(fields)[j].key == fields[j].key == RereadFields(fields)[j].key
    {
      FieldsAt(fields, j);
    }
    FieldsAt(fields, i);
    AssignLookup(RereadFields(fields), map[], i);
    AssignLookup(FieldsToJson(fields), map[], i);
  }

  lemma {:induction false} SameFields(fields: seq<Field>)
    requires forall f | f in fields :: Reread(f.value) == ToJson(f.value)
    ensures RereadFields(fields) == FieldsToJson(fields)
    decreases |fields|
  {
    if fields != [] {
      SameFields(fields[1..]);
    }
  }

  lemma {:induction false} RereadIsPrintedIff(t: Tree)
    requires DistinctKeys(t) && Readable(t)
    ensures Reread(t) == ToJson(t) <==> Plain(t)
  {
    if t.TDict? {
      var fields := t.fields;
      forall f | f in fields ensures Reread(f.value) == ToJson(f.value) <==> Plain(f.value) {
        RereadIsPrintedIff(f.value);
      }
      if Plain(t) {
        SameFields(fields);
      } else {
        var f :| f in fields && !Plain(f.value);
        var i :| 0 <= i < |fields| && fields[i] == f;
        DictsDiffer(fields, i);
      }
    }
  }

  lemma {:induction false} PlainIsReadable(t: Tree)
    requires Plain(t)
    ensures Readable(t)
  {
    if t.TDict? {
      forall f | f in t.fields ensures Readable(f.value) {
        PlainIsReadable(f.value);
      }
    }
  }

  /** Printing and reading back is the identity exactly on the values made of ints, strings and
      dicts, in any key order and before any text that does not continue a number. */
  lemma PrintRoundTripIff(fits: DoubleRange, t: Tree, after: string)
    requires DistinctKeys(t) && EndsNumber(Print(t) + after, |Print(t)|)
    ensures Parse(fits, Print(t) + after) == Parsed(ToJson(t), |Print(t)|) <==> Plain(t)
  {
    hide Parse, Print, Reread, ToJson;
    PrintStarts(t);
    assert At(Print(t) + after, 0, Print(t));
    PrintedOutcome(fits, Print(t) + after, t);
    if Readable(t) {
      RereadIsPrintedIff(t);
    } else if Plain(t) {
      PlainIsReadable(t);
    }
  }

  /** `[985, 211]` prints as `{985, 211}`, of which the reader eats nothing. */
  lemma ListDoesNotReadBack(fits: DoubleRange)
    ensures Print(TList([TInt(985), TInt(211)])) == "{985, 211}"
    ensures Parse(fits, "{985, 211}").eaten == 0
  {
    hide Parse;
    TwoNumbers();
    PrintedOutcome(fits, "{985, 211}", TList([TInt(985), TInt(211)]));
  }

  lemma TwoNumbers()
    ensures Print(TList([TInt(985), TInt(211)])) == "{985, 211}"
  {
    DigitsSnoc(98, '5');
    DigitsSnoc(9, '8');
    DigitsSnoc(21, '1');
    DigitsSnoc(2, '1');
    hide Digits;
    var items := [TInt(985), TInt(211)];
    assert PrintItems(items[1..][1..], true) == "";
    assert PrintItems(items[1..], true) == ", 211";
  }

  lemma DigitsSnoc(n: nat, c: char)
    requires n > 0 && IsDigit(c)
    ensures Digits(10 * n + (c as int - '0' as int)) == Digits(n) + [c]
    ensures n < 10 ==> Digits(n) == ['0' + n as char]
  {
  }
}
