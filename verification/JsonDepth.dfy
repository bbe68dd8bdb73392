/** How deep the calls of the JSON reader nest. */
module JsonDepth {
  import opened Json

  /** What a call of `parse` gives where no further one can be nested: anything that eats no more
      than there is. */
  type Beyond = string -> Parsed

  ghost predicate Sane(beyond: Beyond) {
    forall s :: beyond(s).eaten <= |s|
  }

  /** `parse` with at most `depth` calls nested in one another. */
  ghost function ParseWithin(fits: DoubleRange, beyond: Beyond, depth: nat, json: string): (p: Parsed)
    requires Sane(beyond)
    ensures p.eaten <= |json|
    decreases depth, 0
  {
    if depth == 0 then beyond(json) else ParseWith(fits, RestWithin(fits, beyond, depth - 1, json), json)
  }

  ghost function RestWithin(fits: DoubleRange, beyond: Beyond, depth: nat, json: string): (rest: Rest)
    requires Sane(beyond)
    ensures Within(rest, json)
    decreases depth, 1
  {
    (i: nat) => if 1 <= i <= |json| then ParseWithin(fits, beyond, depth, json[i..]) else NOTHING
  }

  /** The places of a text after which something is left, or something was read. */
  ghost predicate SameCalls(r: Rest, s: Rest, n: nat) {
    forall i: nat | 1 <= i <= n && (i < n || n > 1) :: r(i) == s(i)
  }

  lemma {:induction false} SameList(r: Rest, s: Rest, json: string, i: nat, res: seq<Json>)
    requires 1 <= i <= |json| && Within(r, json) && Within(s, json) && SameCalls(r, s, |json|)
    ensures ListLoop(r, json, i, res) == ListLoop(s, json, i, res)
    decreases |json| - i
  {
    if i < |json| && json[i] != ']' && r(i).eaten > 0 {
      SameList(r, s, json, Skip(json, i + r(i).eaten, ','), res + [r(i).obj]);
    }
  }

  lemma {:induction false} SameDict(r: Rest, s: Rest, json: string, i: nat, res: map<string, Json>)
    requires 1 <= i <= |json| && Within(r, json) && Within(s, json) && SameCalls(r, s, |json|)
    ensures DictLoop(r, json, i, res) == DictLoop(s, json, i, res)
    decreases |json| - i
  {
    hide Skip;
    if i < |json| && json[i] != '}' {
      var key := r(i);
      assert s(i) == key;
      if key.eaten > 0 && key.obj.Str? {
        var j := Skip(json, i + key.eaten, ':');
        var val := r(j);
        assert s(j) == val;
        if val.eaten > 0 {
          SameDict(r, s, json, Skip(json, j + val.eaten, ','), res[key.obj.s := val.obj]);
        }
      }
    }
  }

  lemma SameWith(fits: DoubleRange, r: Rest, s: Rest, json: string)
    requires Within(r, json) && Within(s, json) && SameCalls(r, s, |json|)
    ensures ParseWith(fits, r, json) == ParseWith(fits, s, json)
  {
    hide ParseNumber, StringLoop, ListLoop, DictLoop;
    if json != [] {
      SameList(r, s, json, 1, []);
      SameDict(r, s, json, 1, map[]);
    }
  }

  lemma ParseIsWith(fits: DoubleRange, json: string)
    ensures Within(RestOf(fits, json), json) && Parse(fits, json) == ParseWith(fits, RestOf(fits, json), json)
  {
    hide ParseWith;
  }

  /** On a text of `n > 0` characters no more than `n` calls are ever nested: what lies beyond plays
      no part in the result. */
  lemma {:induction false} DepthIsBounded(fits: DoubleRange, beyond: Beyond, depth: nat, json: string)
    requires Sane(beyond) && depth > 0 && depth >= |json|
    ensures ParseWithin(fits, beyond, depth, json) == Parse(fits, json)
    decreases depth
  {
    hide ParseWith, Parse;
    var r, s := RestWithin(fits, beyond, depth - 1, json), RestOf(fits, json);
    if |json| > 1 {
      forall i: nat | 1 <= i <= |json| ensures r(i) == s(i) {
        DepthIsBounded(fits, beyond, depth - 1, json[i..]);
      }
    }
    ParseIsWith(fits, json);
    SameWith(fits, r, s, json);
  }

  function Brackets(n: nat): (s: string)
    ensures |s| == n && forall i | 0 <= i < n :: s[i] == '['
  {
    seq(n, _ => '[')
  }

  function EatAll(s: string): Parsed {
    Parsed(Null, |s|)
  }

  /** `n` opening brackets do nest `n` calls: with fewer, what lies beyond shows in the result. */
  lemma {:induction false} BracketsNest(fits: DoubleRange, depth: nat, n: nat)
    requires depth < n
    ensures ParseWithin(fits, EatAll, depth, Brackets(n)).eaten == Parse(fits, Brackets(n)).eaten == n
    ensures ParseWithin(fits, EatAll, depth, Brackets(n)).obj != Parse(fits, Brackets(n)).obj
    decreases depth
  {
    hide ParseWith, Parse;
    var json := Brackets(n);
    BracketsEaten(fits, n);
    if depth > 0 {
      BracketsNest(fits, depth - 1, n - 1);
      assert json[1..] == Brackets(n - 1);
      ParseIsWith(fits, json);
      OpensList(fits, RestOf(fits, json), n);
      OpensList(fits, RestWithin(fits, EatAll, depth - 1, json), n);
    }
  }

  lemma {:induction false} BracketsEaten(fits: DoubleRange, n: nat)
    requires n > 0
    ensures Parse(fits, Brackets(n)).eaten == n && Parse(fits, Brackets(n)).obj.Array?
    decreases n
  {
    hide ParseWith, Parse;
    var json := Brackets(n);
    if n > 1 {
      BracketsEaten(fits, n - 1);
      assert json[1..] == Brackets(n - 1);
    }
    ParseIsWith(fits, json);
    OpensList(fits, RestOf(fits, json), n);
  }

  /** A list that begins with an item of all the rest of the text has no other. */
  lemma OpensList(fits: DoubleRange, rest: Rest, n: nat)
    requires n > 0 && Within(rest, Brackets(n)) && (n > 1 ==> rest(1).eaten == n - 1)
    ensures ParseWith(fits, rest, Brackets(n)) == Parsed(Array(if n == 1 then [] else [rest(1).obj]), n)
  {
    var json := Brackets(n);
    assert Spaces(json) == 0;
    assert [] + [rest(1).obj] == [rest(1).obj];
    assert n > 1 ==> ListLoop(rest, json, n, [rest(1).obj]) == Parsed(Array([rest(1).obj]), n);
  }
}
