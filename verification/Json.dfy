/** The JSON reader of basic/jsontest/Jsontask.cpp as a function on text. */
module Json {
  import opened Options
  import opened Decimal

  /** `JSONObject`. The value of a double is not modelled: it is carried as its text. */
  datatype Json =
    | Null
    | Bool(b: bool)
    | Int(n: int32)
    | Double(text: string)
    | Str(s: string)
    | Array(items: seq<Json>)
    | Dict(entries: map<string, Json>)

  /** The pair `parse` returns: the object and how many characters it ate. */
  datatype Parsed = Parsed(obj: Json, eaten: nat)

  const NOTHING := Parsed(Null, 0)

  /** Which texts `from_chars` can represent as a double; any such choice. */
  type DoubleRange = string -> bool

  // ---------- Characters ----------

  /** `find_first_not_of`, the length standing for `npos`. */
  function Spaces(s: string): (k: nat)
    ensures k <= |s|
  {
    if s == [] || !IsSpace(s[0]) then 0 else 1 + Spaces(s[1..])
  }

  function Unescaped(c: char): char {
    match c
    case 'n' => '\n'
    case 'r' => '\r'
    case '0' => '\0'
    case 't' => '\t'
    case 'v' => VT
    case 'f' => FF
    case 'b' => 8 as char
    case 'a' => 7 as char
    case _ => c
  }

  // ---------- Numbers ----------

  function SignLen(s: string): (k: nat)
    ensures k <= |s| && k <= 1
  {
    if s != [] && (s[0] == '+' || s[0] == '-') then 1 else 0
  }

  /** The length of `[eE][+-]?[0-9]+` at the start of `s`, 0 if it does not match. */
  function ExponentLen(s: string): (k: nat)
    ensures k <= |s|
  {
    if s == [] || (s[0] != 'e' && s[0] != 'E') then 0 else
    var sign := SignLen(s[1..]);
    var digits := DigitRun(s[1 + sign..]);
    if digits == 0 then 0 else 1 + sign + digits
  }

  /** The length of the greedy match of `num_re` at the start of `s`, 0 if it does not match. */
  function NumberLen(s: string): (k: nat)
    ensures k <= |s|
  {
    var sign := SignLen(s);
    var digits := DigitRun(s[sign..]);
    if digits == 0 then 0 else
    var i := sign + digits;
    var j := if i < |s| && s[i] == '.' then i + 1 + DigitRun(s[i + 1..]) else i;
    j + ExponentLen(s[j..])
  }

  /** `regex_search`: the leftmost match anywhere in `s`, not only at its start. */
  function SearchNumber(s: string): (m: string)
    ensures |m| <= |s|
  {
    if s == [] then [] else
    var k := NumberLen(s);
    if k > 0 then s[..k] else SearchNumber(s[1..])
  }

  function ParseNumber(fits: DoubleRange, s: string): (p: Parsed)
    ensures p.eaten <= |s|
  {
    var str := SearchNumber(s);
    if str == [] then NOTHING else
    match IntOfText(str)
    case Some(n) => Parsed(Int(n), |str|)
    case None => if str[0] != '+' && fits(str) then Parsed(Double(str), |str|) else NOTHING
  }

  // ---------- parse ----------

  function Parse(fits: DoubleRange, json: string): (p: Parsed)
    ensures p.eaten <= |json|
    decreases |json|
  {
    ParseWith(fits, (i: nat) => if 1 <= i <= |json| then Parse(fits, json[i..]) else NOTHING, json)
  }

  /** The body of `parse`, its recursive calls being made through `rest`. */
  function ParseWith(fits: DoubleRange, rest: Rest, json: string): (p: Parsed)
    requires Within(rest, json)
    ensures p.eaten <= |json|
  {
    if json == [] then NOTHING else
    var off := Spaces(json);
    if off != 0 && off != |json| then
      var p := rest(off);
      p.(eaten := p.eaten + off)
    else if IsDigit(json[0]) || json[0] == '+' || json[0] == '-' then ParseNumber(fits, json)
    else if json[0] == '"' then StringLoop(json, 1, false, [])
    else if json[0] == '[' then ListLoop(rest, json, 1, [])
    else if json[0] == '{' then DictLoop(rest, json, 1, map[])
    else NOTHING
  }

  function StringLoop(json: string, i: nat, escaped: bool, str: string): (p: Parsed)
    requires i <= |json|
    ensures p.obj.Str? && i <= p.eaten <= |json|
    decreases |json| - i
  {
    if i == |json| then Parsed(Str(str), i)
    else if json[i] == '"' && !escaped then Parsed(Str(str), i + 1)
    else StringLoop(json, i + 1, json[i] == '\\' && !escaped, str + Taken(json[i], escaped))
  }

  /** What a character of a string literal adds to the string. */
  function Taken(ch: char, escaped: bool): string {
    if escaped then [Unescaped(ch)] else if ch == '\\' then "" else [ch]
  }

  /** `if (json[i] == c) i += 1;`, the end of the text matching nothing. */
  function Skip(json: string, i: nat, c: char): (j: nat)
    requires i <= |json|
    ensures i <= j <= |json|
  {
    if i < |json| && json[i] == c then i + 1 else i
  }

  /** `parse(json.substr(i))` for every `i`. */
  type Rest = nat -> Parsed

  ghost predicate Within(rest: Rest, json: string) {
    forall i: nat | i <= |json| :: i + rest(i).eaten <= |json|
  }

  function ListLoop(rest: Rest, json: string, i: nat, res: seq<Json>): (p: Parsed)
    requires i <= |json| && Within(rest, json)
    ensures p.obj.Array? && i <= p.eaten <= |json|
    decreases |json| - i
  {
    if i == |json| then Parsed(Array(res), i)
    else if json[i] == ']' then Parsed(Array(res), i + 1)
    else
      var item := rest(i);
      if item.eaten == 0 then Parsed(Array(res), i)
      else ListLoop(rest, json, Skip(json, i + item.eaten, ','), res + [item.obj])
  }

  function DictLoop(rest: Rest, json: string, i: nat, res: map<string, Json>): (p: Parsed)
    requires i <= |json| && Within(rest, json)
    ensures p.obj.Dict? && (p.eaten == 0 || i <= p.eaten <= |json|)
    decreases |json| - i
  {
    if i == |json| then Parsed(Dict(res), i)
    else if json[i] == '}' then Parsed(Dict(res), i + 1)
    else
      var key := rest(i);
      if key.eaten == 0 || !key.obj.Str? then Parsed(Dict(res), 0) else
      var j := Skip(json, i + key.eaten, ':');
      var val := rest(j);
      if val.eaten == 0 then Parsed(Dict(res), 0)
      else DictLoop(rest, json, Skip(json, j + val.eaten, ','), res[key.obj.s := val.obj])
  }

  function RestOf(fits: DoubleRange, json: string): Rest {
    (i: nat) => if 1 <= i <= |json| then Parse(fits, json[i..]) else NOTHING
  }

  lemma ParseContainer(fits: DoubleRange, json: string)
    requires json != [] && json[0] in {'[', '{'}
    ensures Within(RestOf(fits, json), json)
    ensures Parse(fits, json) == if json[0] == '[' then ListLoop(RestOf(fits, json), json, 1, [])
                                 else DictLoop(RestOf(fits, json), json, 1, map[])
  {
    assert Spaces(json) == 0;
  }
}
