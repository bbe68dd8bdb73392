/** The lines of the task list, character by character: what is typed, what is written to the file,
    and what is read from it. */
module TaskLines {
  import opened Options
  import opened Decimal
  import opened TaskStore

  // ---------- Typed lines ----------

  lemma Worded(st: Store, name: string, args: string)
    requires ' ' !in name && name != ""
    ensures Cut(name + " " + args, ' ') == (name, Some(args))
    ensures name + " " + args !in {"", "exit", "quit"}
  {
    CutIs(name, ' ', args);
    assert (name + " " + args)[|name|] == ' ';
  }

  lemma Fields(id: string, description: string, priority: string, dueDate: string)
    ensures description + "," + priority + "," + dueDate == description + ("," + priority + "," + dueDate)
    ensures id + "," + description + "," + priority + "," + dueDate
            == id + ("," + (description + ("," + priority + "," + dueDate)))
  {
  }

  /** `add` appends the task that the line describes, under the next id. */
  lemma AddLine(st: Store, description: string, priority: int32, dueDate: string)
    requires ',' !in description
    ensures var (next, reply) := Execute(st, "add " + (description + "," + IntText(priority) + "," + dueDate));
            if st.nextId == 0x7FFF_FFFF then next == st && reply == Overflowed
            else reply == Added && next.nextId == st.nextId + 1
                 && next.tasks == st.tasks + [Task(st.nextId, description, priority, dueDate)]
  {
    hide Execute, Add, IntText, ScanInt, Cut, Text;
    ForAdd(st, description + "," + IntText(priority) + "," + dueDate);
    PriorityHasNoComma(priority);
    AddReads(st, description, IntText(priority), dueDate);
    NumbersScan(priority);
    Rejoined(description, IntText(priority), dueDate);
    Fields("", description, IntText(priority), dueDate);
  }

  lemma PriorityHasNoComma(n: int32)
    ensures ',' !in IntText(n)
  {
  }

  /** `update` rewrites the task with the id typed, and no other; without it nothing changes. */
  lemma UpdateLine(st: Store, id: int32, info: Info, q: int32)
    requires Inv(st) && ',' !in info.description
    ensures var line := IntText(id) + "," + info.description + "," + IntText(info.priority) + "," + info.dueDate;
            var (next, reply) := Execute(st, "update " + line);
            && next.nextId == st.nextId && |next.tasks| == |st.tasks|
            && (if Lookup(st.tasks, id) == None then next == st && reply == NotFound else reply == Updated)
            && Lookup(next.tasks, q)
               == if q == id && Lookup(st.tasks, id).Some? then Some(info) else Lookup(st.tasks, q)
  {
    hide Execute, Update, IntText, ScanInt, Cut, Inv, IndexOf, Text;
    var t := Task(id, info.description, info.priority, info.dueDate);
    Saves(t);
    ForUpdate(st, SaveLine(t));
    TypedLineIsUpdated(st, t);
    UpdateTaskUpdatesTheMap(st, id, info, q);
  }

  /** `delete` removes the task with the id typed, and no other; without it nothing changes. Anything
      behind the number is refused. */
  lemma DeleteLine(st: Store, id: int32, more: string, q: int32)
    requires Inv(st) && (more != "" ==> !IsDigit(more[0]))
    ensures var (next, reply) := Execute(st, "delete " + (IntText(id) + more));
            && next.nextId == st.nextId
            && (if more != "" then next == st && reply == BadFormat
                else if Lookup(st.tasks, id) == None then next == st && reply == NotFound
                else reply == Deleted && |next.tasks| == |st.tasks| - 1)
            && Lookup(next.tasks, q) == if q == id && more == "" then None else Lookup(st.tasks, q)
  {
    hide Execute, Delete, IntText, ScanInt, Cut, Inv, IndexOf, Text;
    ForDelete(st, IntText(id) + more);
    TypedIdIsDeleted(st, id, more);
    RemoveTaskUpdatesTheMap(st, id, q);
  }

  /** `list` changes nothing. A number must stand alone; without one nothing is said. */
  lemma ListLine(st: Store, option: int32, more: string, args: string)
    requires more != "" ==> !IsDigit(more[0])
    ensures Execute(st, "list " + (IntText(option) + more)) == (st, if more == "" then Listed else BadFormat)
    ensures Execute(st, "list " + args).0 == st && Execute(st, "list") == (st, Silent)
  {
    hide Execute, IntText, ScanInt, Cut;
    ForList(st, IntText(option) + more);
    ForList(st, args);
    ScanIntText(option, more);
    NothingScans();
  }

  lemma NothingScans()
    ensures ScanInt("") == Absent
  {
  }

  lemma {:induction false} NoCut(s: string, c: char)
    requires c !in s
    ensures Cut(s, c) == (s, None)
    decreases |s|
  {
    if s != "" {
      NoCut(s[1..], c);
      assert [s[0]] + s[1..] == s;
    }
  }

  /** Only these four words are commands; `exit` and `quit` end the program if they stand alone. */
  lemma OtherLine(st: Store, name: string, args: string)
    requires ' ' !in name && name !in {"add", "update", "delete", "list"}
    ensures Execute(st, name + " " + args) == (st, Unknown)
    ensures Execute(st, name) == (st, if name == "" then Silent else if name in {"exit", "quit"} then Bye else Unknown)
  {
    CutIs(name, ' ', args);
    NoCut(name, ' ');
    assert (name + " " + args)[|name|] == ' ';
  }

  /** A line with too few commas is refused, and an `add` or `update` whose number is none ends the
      program with nothing changed. */
  lemma BadLine(st: Store, a: string, b: string, c: string, d: string)
    requires ',' !in a && ',' !in b && ',' !in c
    ensures Execute(st, "add " + a) == Execute(st, "add " + (a + "," + b)) == (st, BadFormat)
    ensures Execute(st, "update " + a) == Execute(st, "update " + (a + "," + b)) == (st, BadFormat)
    ensures Execute(st, "update " + (a + "," + b + "," + c)) == (st, BadFormat)
    ensures !ScanInt(b).Number? ==> Execute(st, "add " + (a + "," + b + "," + d)) == (st, Thrown)
    ensures !ScanInt(a).Number? || !ScanInt(c).Number? ==>
              Execute(st, "update " + (a + "," + b + "," + c + "," + d)) == (st, Thrown)
  {
    hide Execute, ScanInt, Add, Update;
    BadAdd(st, a, b, d);
    BadUpdate(st, a, b, c, d);
    ForAdd(st, a);
    ForAdd(st, a + "," + b);
    ForAdd(st, a + "," + b + "," + d);
    ForUpdate(st, a);
    ForUpdate(st, a + "," + b);
    ForUpdate(st, a + "," + b + "," + c);
    ForUpdate(st, a + "," + b + "," + c + "," + d);
  }

  lemma Saves(t: Task)
    ensures SaveLine(t) == IntText(t.id) + "," + t.description + "," + IntText(t.priority) + "," + t.dueDate
  {
    hide IntText;
    Fields(IntText(t.id), t.description, IntText(t.priority), t.dueDate);
  }

  lemma ForDelete(st: Store, args: string)
    ensures Execute(st, "delete " + args) == Delete(st, args)
  {
    hide Cut, Delete;
    Worded(st, "delete", args);
    assert "delete" + " " + args == "delete " + args;
  }

  lemma ForList(st: Store, args: string)
    ensures Execute(st, "list " + args) == List(st, args) && Execute(st, "list") == List(st, "")
  {
    hide Cut, List;
    Worded(st, "list", args);
    NoCut("list", ' ');
    assert "list" + " " + args == "list " + args;
  }

  lemma ForAdd(st: Store, args: string)
    ensures Execute(st, "add " + args) == Add(st, args)
  {
    hide Cut, Add;
    Worded(st, "add", args);
    assert "add" + " " + args == "add " + args;
  }

  lemma ForUpdate(st: Store, args: string)
    ensures Execute(st, "update " + args) == Update(st, args)
  {
    hide Cut, Update;
    Worded(st, "update", args);
    assert "update" + " " + args == "update " + args;
  }

  lemma BadAdd(st: Store, a: string, b: string, d: string)
    requires ',' !in a && ',' !in b
    ensures Add(st, a) == Add(st, a + "," + b) == (st, BadFormat)
    ensures !ScanInt(b).Number? ==> Add(st, a + "," + b + "," + d) == (st, Thrown)
  {
    hide ScanInt, AddTask, Cut;
    NoCut(a, ',');
    NoCut(b, ',');
    CutIs(a, ',', b);
    CutIs(a, ',', b + "," + d);
    CutIs(b, ',', d);
    assert a + "," + b + "," + d == a + [','] + (b + "," + d);
  }

  lemma BadUpdate(st: Store, a: string, b: string, c: string, d: string)
    requires ',' !in a && ',' !in b && ',' !in c
    ensures Update(st, a) == Update(st, a + "," + b) == Update(st, a + "," + b + "," + c) == (st, BadFormat)
    ensures !ScanInt(a).Number? || !ScanInt(c).Number? ==> Update(st, a + "," + b + "," + c + "," + d) == (st, Thrown)
  {
    hide ScanInt, UpdateTask, IndexOf, Cut;
    NoCut(a, ',');
    NoCut(b, ',');
    NoCut(c, ',');
    CutIs(a, ',', b);
    CutIs(a, ',', b + "," + c);
    CutIs(a, ',', b + "," + (c + "," + d));
    CutIs(b, ',', c);
    CutIs(b, ',', c + "," + d);
    CutIs(c, ',', d);
    assert a + "," + b + "," + c == a + [','] + (b + "," + c);
    assert a + "," + b + "," + c + "," + d == a + [','] + (b + "," + (c + "," + d));
  }

  /** The program goes on with the next line unless this one ends it: by `exit` or `quit`, by an
      exception that nobody catches, or by an overflow of the id counter. */
  lemma RunGoesOnIff(st: Store, line: string, more: seq<string>)
    ensures var (next, reply) := Execute(st, line);
            Run(st, [line] + more) == if reply in {Bye, Thrown, Overflowed} then next else Run(next, more)
    ensures Run(st, []) == st
  {
    hide Execute;
    assert ([line] + more)[1..] == more;
  }

  // ---------- Numbers ----------

  ghost predicate AllSpaces(s: string) {
    forall c | c in s :: IsSpace(c)
  }

  lemma {:induction false} SpacesAreSkipped(space: string, s: string)
    requires AllSpaces(space) && (s != "" ==> !IsSpace(s[0]))
    ensures SkipSpace(space + s) == s
    decreases |space|
  {
    if space == "" {
      assert space + s == s;
    } else {
      assert space[0] in space && (space + s)[1..] == space[1..] + s;
      SpacesAreSkipped(space[1..], s);
    }
  }

  /** White space and one sign may stand before the digits; a number that 32 bits cannot hold is as
      wrong as one without digits. */
  lemma NumberScans(space: string, sign: string, digits: string, rest: string)
    requires AllSpaces(space) && sign in {"", "+", "-"} && AllDigits(digits)
    requires rest != "" ==> !IsDigit(rest[0])
    requires sign == "" && digits == "" ==> rest != "" && !IsSpace(rest[0]) && rest[0] !in {'+', '-'}
    ensures var value: int := DigitsValue(digits);
            var v := if sign == "-" then -value else value;
            ScanInt(space + (sign + (digits + rest)))
            == if digits == "" then Wrong(0) else if v > 0x7FFF_FFFF then Wrong(0x7FFF_FFFF)
               else if v < -0x8000_0000 then Wrong(-0x8000_0000) else Number(v, rest)
    ensures ScanInt(space) == Absent
  {
    var u := digits + rest;
    var s := sign + u;
    assert digits != "" ==> digits[0] in digits;
    assert s != "";
    if sign == "" {
      assert s == u;
    } else {
      assert s[1..] == u;
    }
    SpacesAreSkipped(space, s);
    SpacesAreSkipped(space, "");
    assert space + "" == space;
    DigitRunOf(digits, rest);
    assert u[..|digits|] == digits && u[|digits|..] == rest;
    hide DigitsValue, SkipSpace, DigitRun;
  }

  // ---------- The file ----------

  /** What is written: a line for every task, its fields in this order with commas between them. */
  lemma FileText(t: Task, ts: seq<Task>)
    ensures Text([]) == ""
    ensures Text([t] + ts)
            == IntText(t.id) + "," + t.description + "," + IntText(t.priority) + "," + t.dueDate + "\n" + Text(ts)
  {
    hide IntText, SaveLine;
    Saves(t);
    assert ([t] + ts)[1..] == ts;
  }

  /** What is read: whatever stands behind the id separates the description, too, and any character
      the date. */
  lemma LineIsRead(id: int32, sep: char, description: string, priority: int32, c: char, dueDate: string)
    requires sep !in description && !IsDigit(sep) && !IsSpace(sep) && !IsDigit(c) && !IsSpace(c)
    ensures LoadLine(IntText(id) + ([sep] + description + [sep]) + (IntText(priority) + ([c] + dueDate)))
            == Some(Task(id, description, priority, dueDate))
  {
    hide ScanInt, IntText;
    var tail := IntText(priority) + ([c] + dueDate);
    var body := description + [sep] + tail;
    var r := [sep] + body;
    assert IntText(id) + ([sep] + description + [sep]) + tail == IntText(id) + r;
    ScanIntText(id, r);
    assert r[1..] == body;
    CutIs(description, sep, tail);
    ScanIntText(priority, [c] + dueDate);
    assert ([c] + dueDate)[1..] == dueDate;
  }

  /** A line whose id or priority cannot be read: without the priority's text nothing is known of the
      task; with a wrong one the task gets what the failed read stores, and no date. */
  lemma BadLineIsRead(line: string, id: int32, sep: char, description: string, tail: string)
    requires sep !in description && !IsDigit(sep) && !IsSpace(sep)
    ensures !ScanInt(line).Number? ==> LoadLine(line) == None
    ensures LoadLine(IntText(id)) == None && LoadLine(IntText(id) + ([sep] + description)) == None
    ensures var r := LoadLine(IntText(id) + ([sep] + description + [sep]) + tail);
            match ScanInt(tail)
            case Absent => r == None
            case Wrong(stored) => r == Some(Task(id, description, stored, ""))
            case Number(p, _) => r.Some? && r.value.priority == p && r.value.description == description
  {
    hide ScanInt, IntText, Cut;
    var cut, body := [sep] + description, description + [sep] + tail;
    NumbersScan(id);
    ScanIntText(id, cut);
    assert cut[1..] == description;
    NoCut(description, sep);
    NothingScans();
    assert IntText(id) + ([sep] + description + [sep]) + tail == IntText(id) + ([sep] + body);
    ScanIntText(id, [sep] + body);
    assert ([sep] + body)[1..] == body;
    CutIs(description, sep, tail);
  }

  /** Every line becomes a task, empty ones aside, and the next id is one above all ids read. */
  lemma LinesAreRead(line: string, more: string, n: int32)
    requires '\n' !in line
    ensures LoadLines("", n) == Loaded([], n) && LoadLines("\n" + more, n) == LoadLines(more, n)
    ensures line != "" && LoadLine(line).Some? && !(n <= LoadLine(line).value.id == 0x7FFF_FFFF) ==>
              var t := LoadLine(line).value;
              var rest := LoadLines(more, if t.id >= n then t.id + 1 else n);
              LoadLines(line + "\n" + more, n)
              == if rest == Undefined then Undefined else Loaded([t] + rest.tasks, rest.nextId)
    ensures line != "" && (LoadLine(line) == None || n <= LoadLine(line).value.id == 0x7FFF_FFFF) ==>
              LoadLines(line + "\n" + more, n) == Undefined
  {
    hide LoadLine, Cut;
    CutIs("", '\n', more);
    assert "" + ['\n'] + more == "\n" + more;
    CutIs(line, '\n', more);
  }
}
