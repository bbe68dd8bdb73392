/** The reader and the printer as the loops of the C++ code, proved against the functions. */
module JsonReader {
  import opened Decimal
  import opened Json
  import opened JsonRender
  import opened JsonPrint

  method ParseText(fits: DoubleRange, json: string) returns (obj: Json, eaten: nat)
    ensures Parsed(obj, eaten) == Parse(fits, json)
    decreases |json|, 1
  {
    obj, eaten := Null, 0;
    if json == [] {
      return;
    }
    var off := Spaces(json);
    if off != 0 && off != |json| {
      obj, eaten := ParseText(fits, json[off..]);
      eaten := eaten + off;
    } else if IsDigit(json[0]) || json[0] == '+' || json[0] == '-' {
      var p := ParseNumber(fits, json);
      obj, eaten := p.obj, p.eaten;
    } else if json[0] == '"' {
      obj, eaten := ParseString(json);
    } else if json[0] == '[' {
      ParseContainer(fits, json);
      obj, eaten := ParseList(fits, json);
    } else if json[0] == '{' {
      ParseContainer(fits, json);
      obj, eaten := ParseDict(fits, json);
    }
  }

  method ParseString(json: string) returns (obj: Json, eaten: nat)
    requires json != []
    ensures Parsed(obj, eaten) == StringLoop(json, 1, false, [])
  {
    var str: string, escaped, i := [], false, 1;
    while i < |json|
      invariant 1 <= i <= |json|
      invariant StringLoop(json, i, escaped, str) == StringLoop(json, 1, false, [])
    {
      var ch := json[i];
      assert str + "" == str;
      if !escaped {
        if ch == '\\' {
          escaped := true;
        } else if ch == '"' {
          return Str(str), i + 1;
        } else {
          str := str + [ch];
        }
      } else {
        str := str + [Unescaped(ch)];
        escaped := false;
      }
      i := i + 1;
    }
    return Str(str), i;
  }

  method ParseList(fits: DoubleRange, json: string) returns (obj: Json, eaten: nat)
    requires json != [] && json[0] == '[' && Within(RestOf(fits, json), json)
    ensures Parsed(obj, eaten) == ListLoop(RestOf(fits, json), json, 1, [])
    decreases |json|, 0
  {
    hide Parse;
    ghost var rest := RestOf(fits, json);
    var res: seq<Json>, i := [], 1;
    while i < |json|
      invariant 1 <= i <= |json|
      invariant ListLoop(rest, json, i, res) == ListLoop(rest, json, 1, [])
      decreases |json| - i
    {
      if json[i] == ']' {
        return Array(res), i + 1;
      }
      var item, n := ParseText(fits, json[i..]);
      assert rest(i) == Parsed(item, n);
      if n == 0 {
        break;
      }
      res, i := res + [item], Skip(json, i + n, ',');
    }
    return Array(res), i;
  }

  method ParseDict(fits: DoubleRange, json: string) returns (obj: Json, eaten: nat)
    requires json != [] && json[0] == '{' && Within(RestOf(fits, json), json)
    ensures Parsed(obj, eaten) == DictLoop(RestOf(fits, json), json, 1, map[])
    decreases |json|, 0
  {
    hide Parse, DictLoop;
    ghost var rest := RestOf(fits, json);
    ghost var target := DictLoop(rest, json, 1, map[]);
    var res: map<string, Json>, i := map[], 1;
    while i < |json|
      invariant 1 <= i <= |json|
      invariant DictLoop(rest, json, i, res) == target
      decreases |json| - i
    {
      DictUnfolds(rest, json, i, res);
      if json[i] == '}' {
        return Dict(res), i + 1;
      }
      var key, n := ParseText(fits, json[i..]);
      assert rest(i) == Parsed(key, n);
      if n == 0 || !key.Str? {
        return Dict(res), 0;
      }
      i := Skip(json, i + n, ':');
      var val, m := ParseText(fits, json[i..]);
      assert rest(i) == Parsed(val, m);
      if m == 0 {
        return Dict(res), 0;
      }
      res, i := res[key.s := val], Skip(json, i + m, ',');
    }
    DictUnfolds(rest, json, i, res);
    return Dict(res), i;
  }

  lemma DictUnfolds(rest: Rest, json: string, i: nat, res: map<string, Json>)
    requires i <= |json| && Within(rest, json)
    ensures DictLoop(rest, json, i, res)
            == if i == |json| then Parsed(Dict(res), i)
               else if json[i] == '}' then Parsed(Dict(res), i + 1)
               else if rest(i).eaten == 0 || !rest(i).obj.Str? then Parsed(Dict(res), 0)
               else
                 var j := Skip(json, i + rest(i).eaten, ':');
                 if rest(j).eaten == 0 then Parsed(Dict(res), 0)
                 else DictLoop(rest, json, Skip(json, j + rest(j).eaten, ','), res[rest(i).obj.s := rest(j).obj])
  {
  }

  method PrintTree(t: Tree) returns (out: string)
    ensures out == Print(t)
    decreases t, 0
  {
    match t {
      case TNull => out := "nullptr";
      case TBool(b) => out := if b then "true" else "false";
      case TInt(n) => out := IntText(n);
      case TStr(s) => out := Quoted(s);
      case TList(items) =>
        out := PrintIterable(items);
      case TDict(fields) =>
        out := PrintMap(fields);
    }
  }

  method PrintIterable(items: seq<Tree>) returns (out: string)
    ensures out == "{" + PrintItems(items, false) + "}"
    decreases items, 0
  {
    hide Print;
    out := "{";
    var once := false;
    for i := 0 to |items|
      invariant "{" + PrintItems(items, false) == out + PrintItems(items[i..], once)
    {
      assert items[i..][0] == items[i] && items[i..][1..] == items[i + 1..];
      ghost var done := out;
      out := out + Separator(once);
      var text := PrintTree(items[i]);
      out := out + text;
      Associate(done, Separator(once), text, PrintItems(items[i + 1..], true));
      once := true;
    }
    assert items[|items|..] == [];
    out := out + "}";
  }

  lemma Associate(a: string, b: string, c: string, d: string)
    ensures a + (b + c + d) == a + b + c + d
  {
  }

  method PrintMap(fields: seq<Field>) returns (out: string)
    ensures out == "{" + PrintFields(fields, false) + "}"
    decreases fields, 0
  {
    hide Print, Quoted;
    out := "{";
    var once := false;
    for i := 0 to |fields|
      invariant "{" + PrintFields(fields, false) == out + PrintFields(fields[i..], once)
    {
      assert fields[i..][0] == fields[i] && fields[i..][1..] == fields[i + 1..];
      ghost var done := out;
      out := out + Separator(once);
      var text := PrintTree(fields[i].value);
      var field := Quoted(fields[i].key) + ": " + text;
      out := out + field;
      Associate(done, Separator(once), field, PrintFields(fields[i + 1..], true));
      once := true;
    }
    assert fields[|fields|..] == [];
    out := out + "}";
  }
}
