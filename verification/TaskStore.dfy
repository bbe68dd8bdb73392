/** The task list of basic/final2 as a value: its commands, the file that every change writes, and
    the reading of that file at the next start. */
module TaskStore {
  import opened Options
  import opened Decimal

  const INT_MAX: int32 := 0x7FFF_FFFF

  datatype Task = Task(id: int32, description: string, priority: int32, dueDate: string)

  /** The manager, and what `task.txt` holds if it exists. */
  datatype Store = Store(tasks: seq<Task>, nextId: int32, file: Option<string>)

  // ---------- Reading numbers ----------

  function SkipSpace(s: string): string {
    if s != [] && IsSpace(s[0]) then SkipSpace(s[1..]) else s
  }

  /** What `stoi` and `>>` do: nothing to read, no digits or an overflow (and what `>>` then
      stores), or a number and what follows it. */
  datatype Scanned = Absent | Wrong(stored: int32) | Number(value: int32, rest: string)

  function ScanInt(s: string): Scanned {
    var t := SkipSpace(s);
    if t == [] then Absent else
    ScanDigits(if t[0] == '-' || t[0] == '+' then t[1..] else t, t[0] == '-')
  }

  function ScanDigits(u: string, minus: bool): Scanned {
    var k := DigitRun(u);
    if k == 0 then Wrong(0) else
    DigitRunIsDigits(u);
    var v: int := DigitsValue(u[..k]);
    var n := if minus then -v else v;
    if n > 0x7FFF_FFFF then Wrong(INT_MAX)
    else if n < -0x8000_0000 then Wrong(-0x8000_0000)
    else Number(n, u[k..])
  }

  lemma {:induction false} DigitRunIsDigits(s: string)
    ensures AllDigits(s[..DigitRun(s)])
    ensures DigitRun(s) < |s| ==> !IsDigit(s[DigitRun(s)])
  {
    if s != [] && IsDigit(s[0]) {
      DigitRunIsDigits(s[1..]);
      assert s[..DigitRun(s)] == [s[0]] + s[1..][..DigitRun(s[1..])];
    }
  }

  lemma {:induction false} DigitRunOf(a: string, r: string)
    requires AllDigits(a) && (r != [] ==> !IsDigit(r[0]))
    ensures DigitRun(a + r) == |a|
    decreases |a|
  {
    if a == [] {
      assert a + r == r;
    } else {
      assert a[0] in a && (a + r)[1..] == a[1..] + r;
      DigitRunOf(a[1..], r);
    }
  }

  lemma ScanIntText(n: int32, r: string)
    requires r != [] ==> !IsDigit(r[0])
    ensures ScanInt(IntText(n) + r) == Number(n, r)
  {
    hide ScanInt, ScanDigits;
    var m: int := n;
    var d := Digits(if m < 0 then -m else m);
    assert d[0] in d;
    ScanDigitsText(d, r, n < 0);
    ScanSigned(d, r);
    ScanUnsigned(d + r);
    assert "-" + d + r == "-" + (d + r);
  }

  lemma ScanSigned(d: string, r: string)
    ensures ScanInt("-" + (d + r)) == ScanDigits(d + r, true)
  {
    var s := "-" + (d + r);
    assert s[0] == '-' && s[1..] == d + r;
  }

  lemma ScanUnsigned(s: string)
    requires s != [] && IsDigit(s[0])
    ensures ScanInt(s) == ScanDigits(s, false)
  {
  }

  lemma ScanDigitsText(d: string, r: string, minus: bool)
    requires d != [] && AllDigits(d) && (r != [] ==> !IsDigit(r[0]))
    requires var v: int := DigitsValue(d); -0x8000_0000 <= (if minus then -v else v) < 0x8000_0000
    ensures var v: int := DigitsValue(d); ScanDigits(d + r, minus) == Number(if minus then -v else v, r)
  {
    DigitRunOf(d, r);
    var u, k := d + r, |d|;
    assert u[..k] == d && u[k..] == r;
  }

  // ---------- Cutting text ----------

  /** The text before the first `c`, and after it if there is one. */
  function Cut(s: string, c: char): (r: (string, Option<string>))
    ensures c !in r.0
    ensures s == if r.1.Some? then r.0 + [c] + r.1.value else r.0
  {
    if s == [] then ([], None)
    else if s[0] == c then ([], Some(s[1..]))
    else
      var (a, b) := Cut(s[1..], c);
      ([s[0]] + a, b)
  }

  function Rest(r: Option<string>): string {
    if r.Some? then r.value else ""
  }

  lemma {:induction false} CutIs(a: string, c: char, b: string)
    requires c !in a
    ensures Cut(a + [c] + b, c) == (a, Some(b))
    decreases |a|
  {
    var s := a + [c] + b;
    if a == [] {
      assert s[1..] == b;
    } else {
      assert s[1..] == a[1..] + [c] + b;
      CutIs(a[1..], c, b);
      assert [a[0]] + a[1..] == a;
    }
  }

  // ---------- The file ----------

  function LineEnd(t: Task): string {
    "," + IntText(t.priority) + "," + t.dueDate
  }

  function SaveLine(t: Task): string {
    IntText(t.id) + ("," + (t.description + LineEnd(t)))
  }

  function Text(ts: seq<Task>): string {
    if ts == [] then "" else SaveLine(ts[0]) + ['\n'] + Text(ts[1..])
  }

  lemma {:induction false} TextTake(ts: seq<Task>, i: nat)
    requires i < |ts|
    ensures Text(ts[..i + 1]) == Text(ts[..i]) + SaveLine(ts[i]) + ['\n']
    decreases i
  {
    hide SaveLine;
    if i == 0 {
      assert ts[..1][1..] == [];
    } else {
      TextTake(ts[1..], i - 1);
      assert ts[..i + 1][1..] == ts[1..][..i] && ts[..i][1..] == ts[1..][..i - 1];
    }
  }

  /** One line read back; nothing if the priority stays uninitialized. */
  function LoadLine(line: string): Option<Task> {
    match ScanInt(line)
    case Number(id, r) =>
      var r := SkipSpace(r);
      if r == [] then None else LoadFields(id, r[0], r[1..])
    case _ => None
  }

  /** The rest of a line. The separator is whatever character followed the id. */
  function LoadFields(id: int32, separator: char, s: string): Option<Task> {
    var (description, after) := Cut(s, separator);
    match ScanInt(Rest(after))
    case Absent => None
    case Wrong(stored) => Some(Task(id, description, stored, ""))
    case Number(priority, r) =>
      var r := SkipSpace(r);
      Some(Task(id, description, priority, if r == [] then "" else r[1..]))
  }

  /** The next id once `id` has been seen. */
  function Above(id: int32, nextId: int32): int32 {
    if nextId <= id < INT_MAX then id + 1 else nextId
  }

  datatype Loaded = Undefined | Loaded(tasks: seq<Task>, nextId: int32)

  /** The loop of `LoadTasks` on the lines that are left. */
  function LoadLines(text: string, nextId: int32): Loaded
    decreases |text|
  {
    if text == "" then Loaded([], nextId) else
    var (line, rest) := Cut(text, '\n');
    if line == "" then LoadLines(Rest(rest), nextId) else
    match LoadLine(line)
    case None => Undefined
    case Some(t) =>
      if nextId <= t.id == INT_MAX then Undefined else After([t], LoadLines(Rest(rest), Above(t.id, nextId)))
  }

  function After(ts: seq<Task>, r: Loaded): Loaded {
    if r == Undefined then r else Loaded(ts + r.tasks, r.nextId)
  }

  /** One round of the loop, with the tasks read so far. */
  lemma LoadLinesStep(ts: seq<Task>, text: string, n: int32)
    requires text != ""
    ensures var (line, rest) := Cut(text, '\n');
            After(ts, LoadLines(text, n))
            == if line == "" then After(ts, LoadLines(Rest(rest), n))
               else if LoadLine(line) == None || n <= LoadLine(line).value.id == INT_MAX then Undefined
               else After(ts + [LoadLine(line).value], LoadLines(Rest(rest), Above(LoadLine(line).value.id, n)))
  {
    hide LoadLine, Cut, Rest, Above;
    var (line, rest) := Cut(text, '\n');
    if line != "" && LoadLine(line).Some? {
      var t := LoadLine(line).value;
      AfterAfter(ts, t, LoadLines(Rest(rest), Above(t.id, n)));
    }
  }

  lemma AfterAfter(ts: seq<Task>, t: Task, r: Loaded)
    ensures After(ts, After([t], r)) == After(ts + [t], r)
  {
  }

  lemma RestIsShorter(s: string, c: char)
    requires s != ""
    ensures |Rest(Cut(s, c).1)| < |s|
  {
  }

  lemma AboveIs(id: int32, n: int32)
    ensures Above(id, n) == if n <= id < INT_MAX then id + 1 else n
  {
  }

  lemma LoadLinesEnd(ts: seq<Task>, n: int32)
    ensures After(ts, LoadLines("", n)) == Loaded(ts, n) && forall r :: After([], r) == r
  {
  }

  function Load(file: Option<string>): Option<Store> {
    match file
    case None => Some(Store([], 1, None))
    case Some(text) =>
      match LoadLines(text, 1)
      case Undefined => None
      case Loaded(tasks, nextId) => Some(Store(tasks, nextId, file))
  }

  // ---------- What survives a restart ----------

  predicate OneLine(t: Task) {
    '\n' !in t.description && '\n' !in t.dueDate
  }

  predicate Clean(t: Task) {
    OneLine(t) && ',' !in t.description
  }

  /** A line is read back as it was written exactly when no comma is in the description. */
  lemma LoadLineIff(t: Task)
    ensures LoadLine(SaveLine(t)).Some?
            ==> ',' !in LoadLine(SaveLine(t)).value.description && LoadLine(SaveLine(t)).value.id == t.id
    ensures LoadLine(SaveLine(t)) == Some(t) <==> ',' !in t.description
  {
    var body := t.description + LineEnd(t);
    LoadLineStarts(t.id, body);
    hide LoadLine, ScanInt, SkipSpace, IntText, LineEnd;
    if ',' !in t.description {
      LoadFieldsOf(t);
    }
  }

  lemma LoadLineStarts(id: int32, body: string)
    ensures LoadLine(IntText(id) + ("," + body)) == LoadFields(id, ',', body)
  {
    hide LoadFields, ScanInt, IntText;
    var r := "," + body;
    assert r[0] == ',' && r[1..] == body;
    ScanIntText(id, r);
  }

  lemma LoadFieldsOf(t: Task)
    requires ',' !in t.description
    ensures LoadFields(t.id, ',', t.description + LineEnd(t)) == Some(t)
  {
    hide ScanInt, IntText;
    var end := "," + t.dueDate;
    var after := IntText(t.priority) + end;
    assert LineEnd(t) == [','] + after;
    assert t.description + [','] + after == t.description + LineEnd(t);
    CutIs(t.description, ',', after);
    assert end[0] == ',' && end[1..] == t.dueDate;
    ScanIntText(t.priority, end);
  }

  function NextAfter(ts: seq<Task>, n: int32): int32 {
    if ts == [] then n else NextAfter(ts[1..], Above(ts[0].id, n))
  }

  lemma SaveLineIsOneLine(t: Task)
    requires OneLine(t)
    ensures '\n' !in SaveLine(t) && SaveLine(t) != ""
  {
    assert '\n' !in IntText(t.id) && '\n' !in IntText(t.priority);
  }

  lemma TextCut(ts: seq<Task>)
    requires ts != [] && OneLine(ts[0])
    ensures Text(ts) != "" && Cut(Text(ts), '\n') == (SaveLine(ts[0]), Some(Text(ts[1..])))
  {
    SaveLineIsOneLine(ts[0]);
    CutIs(SaveLine(ts[0]), '\n', Text(ts[1..]));
  }

  /** No task is loaded with a newline. */
  lemma {:induction false} LoadedAreOneLine(text: string, n: int32)
    ensures LoadLines(text, n).Loaded? ==>
              forall i | 0 <= i < |LoadLines(text, n).tasks| :: OneLine(LoadLines(text, n).tasks[i])
    decreases |text|
  {
    hide LoadLine, Cut, Above, OneLine;
    if text != "" {
      var (line, rest) := Cut(text, '\n');
      if line == "" {
        LoadedAreOneLine(Rest(rest), n);
      } else if LoadLine(line).Some? {
        LoadedIsOneLine(line);
        LoadedAreOneLine(Rest(rest), Above(LoadLine(line).value.id, n));
      }
    }
  }

  lemma LoadedIsOneLine(line: string)
    requires '\n' !in line && LoadLine(line).Some?
    ensures OneLine(LoadLine(line).value)
  {
    hide ScanInt, SkipSpace;
    ScanLeavesPart(line);
    var r := SkipSpace(ScanInt(line).rest);
    SkipLeavesPart(ScanInt(line).rest);
    var (description, after) := Cut(r[1..], r[0]);
    assert '\n' !in r[1..];
    assert '\n' !in description && '\n' !in Rest(after);
    ScanLeavesPart(Rest(after));
    if ScanInt(Rest(after)).Number? {
      SkipLeavesPart(ScanInt(Rest(after)).rest);
    }
  }

  lemma {:induction false} SkipLeavesPart(s: string)
    requires '\n' !in s
    ensures '\n' !in SkipSpace(s)
  {
    if s != [] && IsSpace(s[0]) {
      SkipLeavesPart(s[1..]);
    }
  }

  lemma ScanLeavesPart(s: string)
    requires '\n' !in s
    ensures ScanInt(s).Number? ==> '\n' !in ScanInt(s).rest
  {
    SkipLeavesPart(s);
  }

  lemma LoadTextStep(ts: seq<Task>, n: int32)
    requires ts != [] && OneLine(ts[0]) && ts[0].id < INT_MAX
    ensures var t := LoadLine(SaveLine(ts[0]));
            LoadLines(Text(ts), n)
            == if t == None then Undefined else After([t.value], LoadLines(Text(ts[1..]), Above(ts[0].id, n)))
  {
    TextCut(ts);
    SaveLineIsOneLine(ts[0]);
    LoadLineIff(ts[0]);
    hide LoadLine, SaveLine, Text, Above;
  }

  predicate NoCommas(ts: seq<Task>) {
    forall i | 0 <= i < |ts| :: ',' !in ts[i].description
  }

  predicate Storable(ts: seq<Task>) {
    forall i | 0 <= i < |ts| :: OneLine(ts[i]) && ts[i].id < INT_MAX
  }

  lemma NoCommasCons(ts: seq<Task>)
    requires ts != []
    ensures NoCommas(ts) <==> ',' !in ts[0].description && NoCommas(ts[1..])
    ensures Storable(ts) ==> Storable(ts[1..])
  {
    if ',' !in ts[0].description && NoCommas(ts[1..]) {
      forall i | 0 <= i < |ts| ensures ',' !in ts[i].description {
        assert i > 0 ==> ts[i] == ts[1..][i - 1];
      }
    }
  }

  lemma NoTextLoads(n: int32)
    ensures LoadLines(Text([]), n) == Loaded([], n)
  {
  }

  lemma {:induction false} TextLoads(ts: seq<Task>, n: int32)
    requires Storable(ts) && NoCommas(ts)
    ensures LoadLines(Text(ts), n) == Loaded(ts, NextAfter(ts, n))
    decreases |ts|
  {
    hide LoadLine, SaveLine, Text, LoadLines, NoCommas, Above, OneLine, Clean;
    if ts == [] {
      NoTextLoads(n);
    } else {
      LoadTextStep(ts, n);
      LoadLineIff(ts[0]);
      NoCommasCons(ts);
      TextLoads(ts[1..], Above(ts[0].id, n));
      assert ts == [ts[0]] + ts[1..];
    }
  }

  lemma {:induction false} OnlyNoCommasLoads(ts: seq<Task>, n: int32)
    requires Storable(ts) && LoadLines(Text(ts), n).Loaded? && LoadLines(Text(ts), n).tasks == ts
    ensures NoCommas(ts)
    decreases |ts|
  {
    if ts != [] {
      LoadTextStep(ts, n);
      LoadLineIff(ts[0]);
      NoCommasCons(ts);
      hide LoadLine, SaveLine, Text, LoadLines, NoCommas;
      var t, r := LoadLine(SaveLine(ts[0])).value, LoadLines(Text(ts[1..]), Above(ts[0].id, n));
      assert ([t] + r.tasks)[0] == t && ([t] + r.tasks)[1..] == r.tasks;
      OnlyNoCommasLoads(ts[1..], Above(ts[0].id, n));
    }
  }

  /** The saved file gives the tasks back exactly when no description holds a comma and no text a
      newline. */
  lemma SavingIsLosslessIff(ts: seq<Task>)
    requires forall i | 0 <= i < |ts| :: ts[i].id < INT_MAX
    ensures (Load(Some(Text(ts))).Some? && Load(Some(Text(ts))).value.tasks == ts)
            <==> forall i | 0 <= i < |ts| :: Clean(ts[i])
  {
    if !Storable(ts) {
      LoadedAreOneLine(Text(ts), 1);
    } else if NoCommas(ts) {
      TextLoads(ts, 1);
    } else if LoadLines(Text(ts), 1).Loaded? && LoadLines(Text(ts), 1).tasks == ts {
      OnlyNoCommasLoads(ts, 1);
    }
  }

  // ---------- Changing the tasks ----------

  function Saved(st: Store): Store {
    st.(file := Some(Text(st.tasks)))
  }

  /** `find_if` for an id. */
  function IndexOf(ts: seq<Task>, id: int32): (i: nat)
    ensures i <= |ts| && (i < |ts| ==> ts[i].id == id)
    ensures forall j | 0 <= j < i :: ts[j].id != id
  {
    if ts == [] || ts[0].id == id then 0 else 1 + IndexOf(ts[1..], id)
  }

  function AddTask(st: Store, description: string, priority: int32, dueDate: string): Store
    requires st.nextId < INT_MAX
  {
    Saved(st.(tasks := st.tasks + [Task(st.nextId, description, priority, dueDate)], nextId := st.nextId + 1))
  }

  function RemoveTask(st: Store, id: int32): Store {
    var i := IndexOf(st.tasks, id);
    if i == |st.tasks| then st else Saved(st.(tasks := st.tasks[..i] + st.tasks[i + 1..]))
  }

  function UpdateTask(st: Store, id: int32, description: string, priority: int32, dueDate: string): Store {
    var i := IndexOf(st.tasks, id);
    if i == |st.tasks| then st else Saved(st.(tasks := st.tasks[i := Task(id, description, priority, dueDate)]))
  }

  // ---------- Commands ----------

  /** How a command ends: the last three end the program, two of them by an exception that nobody
      catches and by an overflow of the id counter. */
  datatype Reply =
    Silent | Added | Deleted | Updated | NotFound | BadFormat | Listed | Unknown | Bye | Thrown | Overflowed

  predicate Ends(r: Reply) {
    r == Bye || r == Thrown || r == Overflowed
  }

  function Add(st: Store, args: string): (Store, Reply) {
    var (description, r) := Cut(args, ',');
    if r == None then (st, BadFormat) else
    var (priority, date) := Cut(r.value, ',');
    if date == None then (st, BadFormat) else
    match ScanInt(priority)
    case Number(p, _) =>
      if st.nextId == INT_MAX then (st, Overflowed) else (AddTask(st, description, p, date.value), Added)
    case _ => (st, Thrown)
  }

  function Delete(st: Store, args: string): (Store, Reply) {
    match ScanInt(args)
    case Number(id, rest) =>
      if rest != [] then (st, BadFormat)
      else if IndexOf(st.tasks, id) == |st.tasks| then (st, NotFound)
      else (RemoveTask(st, id), Deleted)
    case _ => (st, Thrown)
  }

  function Update(st: Store, args: string): (Store, Reply) {
    var (idText, r) := Cut(args, ',');
    if r == None then (st, BadFormat) else
    var (description, s) := Cut(r.value, ',');
    if s == None then (st, BadFormat) else
    var (priority, date) := Cut(s.value, ',');
    if date == None then (st, BadFormat) else
    match (ScanInt(idText), ScanInt(priority))
    case (Number(id, _), Number(p, _)) =>
      if IndexOf(st.tasks, id) == |st.tasks| then (st, NotFound)
      else (UpdateTask(st, id, description, p, date.value), Updated)
    case _ => (st, Thrown)
  }

  /** `list` catches its own exceptions. */
  function List(st: Store, args: string): (Store, Reply) {
    match ScanInt(args)
    case Number(_, rest) => (st, if rest != [] then BadFormat else Listed)
    case _ => (st, Silent)
  }

  /** One round of the loop in `main`. */
  function Execute(st: Store, input: string): (Store, Reply) {
    if input == "" then (st, Silent)
    else if input == "exit" || input == "quit" then (st, Bye)
    else
      var (name, rest) := Cut(input, ' ');
      var args := Rest(rest);
      if name == "add" then Add(st, args)
      else if name == "delete" then Delete(st, args)
      else if name == "list" then List(st, args)
      else if name == "update" then Update(st, args)
      else (st, Unknown)
  }

  /** A run of the program on the lines typed, up to its end. */
  function Run(st: Store, inputs: seq<string>): Store
    decreases |inputs|
  {
    if inputs == [] then st else
    var (next, reply) := Execute(st, inputs[0]);
    if Ends(reply) then next else Run(next, inputs[1..])
  }

  /** Typing what a saved line holds after its id adds that task. */
  lemma TypedTaskIsAdded(st: Store, t: Task)
    requires ',' !in t.description && st.nextId < INT_MAX
    ensures Add(st, t.description + LineEnd(t)) == (AddTask(st, t.description, t.priority, t.dueDate), Added)
  {
    hide AddTask, ScanInt;
    AddReads(st, t.description, IntText(t.priority), t.dueDate);
    ScanIntText(t.priority, "");
    Rejoined(t.description, IntText(t.priority), t.dueDate);
    hide IntText, Add;
  }

  /** Typing a saved line as an update gives the task with that id the line's fields. */
  lemma TypedLineIsUpdated(st: Store, t: Task)
    requires ',' !in t.description
    ensures Update(st, SaveLine(t))
            == if IndexOf(st.tasks, t.id) == |st.tasks| then (st, NotFound)
               else (UpdateTask(st, t.id, t.description, t.priority, t.dueDate), Updated)
  {
    hide UpdateTask, ScanInt, IntText;
    var priority := IntText(t.priority);
    SaveLineParts(t, IntText(t.id), priority);
    CutIs(IntText(t.id), ',', t.description + [','] + (priority + [','] + t.dueDate));
    CutIs(t.description, ',', priority + [','] + t.dueDate);
    CutIs(priority, ',', t.dueDate);
    NumbersScan(t.id);
    NumbersScan(t.priority);
  }

  lemma SaveLineParts(t: Task, id: string, priority: string)
    requires id == IntText(t.id) && priority == IntText(t.priority)
    ensures SaveLine(t) == id + [','] + (t.description + [','] + (priority + [','] + t.dueDate))
    ensures ',' !in id && ',' !in priority
  {
    Rejoined(t.description, priority, t.dueDate);
    var tail := t.description + LineEnd(t);
    assert id + ("," + tail) == id + [','] + tail;
  }

  lemma NumbersScan(n: int32)
    ensures ScanInt(IntText(n)) == Number(n, "")
  {
    ScanIntText(n, "");
    assert IntText(n) + "" == IntText(n);
  }

  /** Typing an id after `delete` removes that task; anything after the number is refused. */
  lemma TypedIdIsDeleted(st: Store, id: int32, more: string)
    requires more != [] ==> !IsDigit(more[0])
    ensures Delete(st, IntText(id) + more)
            == if more != [] then (st, BadFormat)
               else if IndexOf(st.tasks, id) == |st.tasks| then (st, NotFound) else (RemoveTask(st, id), Deleted)
  {
    hide RemoveTask;
    ScanIntText(id, more);
  }

  lemma Rejoined(d: string, p: string, date: string)
    ensures d + ("," + p + "," + date) == d + [','] + (p + [','] + date) && p + "" == p
  {
  }

  lemma AddReads(st: Store, description: string, priority: string, dueDate: string)
    requires ',' !in description && ',' !in priority
    ensures Add(st, description + [','] + (priority + [','] + dueDate))
            == match ScanInt(priority)
               case Number(p, _) =>
                 if st.nextId == INT_MAX then (st, Overflowed) else (AddTask(st, description, p, dueDate), Added)
               case _ => (st, Thrown)
  {
    hide AddTask, ScanInt;
    CutIs(description, ',', priority + [','] + dueDate);
    CutIs(priority, ',', dueDate);
  }

  // ---------- What every command keeps ----------

  predicate Increasing(ts: seq<Task>) {
    forall i, j | 0 <= i < j < |ts| :: ts[i].id < ts[j].id
  }

  predicate AllClean(ts: seq<Task>) {
    forall i | 0 <= i < |ts| :: Clean(ts[i])
  }

  predicate Below(ts: seq<Task>, n: int32) {
    forall i | 0 <= i < |ts| :: 0 < ts[i].id < n
  }

  /** Ids grow and stay below the next one, descriptions hold no comma, and the file is in step. */
  predicate Inv(st: Store) {
    && Increasing(st.tasks) && Below(st.tasks, st.nextId) && AllClean(st.tasks) && st.nextId > 0
    && st.file == if st.file == None && st.tasks == [] then None else Some(Text(st.tasks))
  }

  lemma AddTaskKeepsInv(st: Store, description: string, priority: int32, dueDate: string)
    requires Inv(st) && st.nextId < INT_MAX && Clean(Task(1, description, priority, dueDate))
    ensures Inv(AddTask(st, description, priority, dueDate))
  {
    hide Text;
  }

  lemma RemoveTaskKeepsInv(st: Store, id: int32)
    requires Inv(st)
    ensures Inv(RemoveTask(st, id))
  {
    hide Text;
    var i := IndexOf(st.tasks, id);
    if i < |st.tasks| {
      var ts := st.tasks[..i] + st.tasks[i + 1..];
      assert forall j | 0 <= j < |ts| :: ts[j] == st.tasks[if j < i then j else j + 1];
    }
  }

  lemma UpdateTaskKeepsInv(st: Store, id: int32, description: string, priority: int32, dueDate: string)
    requires Inv(st) && Clean(Task(id, description, priority, dueDate))
    ensures Inv(UpdateTask(st, id, description, priority, dueDate))
  {
    hide Text;
  }

  /** Every command keeps the invariant, and the next id never falls, whatever line is typed. */
  lemma ExecuteKeepsInv(st: Store, input: string)
    requires Inv(st) && '\n' !in input
    ensures Inv(Execute(st, input).0) && Execute(st, input).0.nextId >= st.nextId
  {
    hide Inv, ScanInt, IndexOf;
    var args := Rest(Cut(input, ' ').1);
    AddKeepsInv(st, args);
    DeleteKeepsInv(st, args);
    UpdateKeepsInv(st, args);
  }

  lemma AddKeepsInv(st: Store, args: string)
    requires Inv(st) && '\n' !in args
    ensures Inv(Add(st, args).0) && Add(st, args).0.nextId >= st.nextId
  {
    hide Inv, ScanInt;
    var (description, r) := Cut(args, ',');
    if Add(st, args).1 == Added {
      var (priority, date) := Cut(r.value, ',');
      AddTaskKeepsInv(st, description, ScanInt(priority).value, date.value);
    }
  }

  lemma DeleteKeepsInv(st: Store, args: string)
    requires Inv(st)
    ensures Inv(Delete(st, args).0) && Delete(st, args).0.nextId >= st.nextId
  {
    hide Inv, ScanInt;
    if Delete(st, args).1 == Deleted {
      RemoveTaskKeepsInv(st, ScanInt(args).value);
    }
  }

  lemma UpdateKeepsInv(st: Store, args: string)
    requires Inv(st) && '\n' !in args
    ensures Inv(Update(st, args).0) && Update(st, args).0.nextId >= st.nextId
  {
    hide Inv, ScanInt;
    var (idText, r) := Cut(args, ',');
    if Update(st, args).1 == Updated {
      var (description, s) := Cut(r.value, ',');
      var (priority, date) := Cut(s.value, ',');
      UpdateTaskKeepsInv(st, ScanInt(idText).value, description, ScanInt(priority).value, date.value);
    }
  }

  lemma {:induction false} RunKeepsInv(st: Store, inputs: seq<string>)
    requires Inv(st) && forall i | 0 <= i < |inputs| :: '\n' !in inputs[i]
    ensures Inv(Run(st, inputs)) && Run(st, inputs).nextId >= st.nextId
    decreases |inputs|
  {
    hide Execute, Inv;
    if inputs != [] {
      ExecuteKeepsInv(st, inputs[0]);
      RunKeepsInv(Execute(st, inputs[0]).0, inputs[1..]);
    }
  }

  lemma {:induction false} NextAfterIs(ts: seq<Task>, n: int32)
    requires Increasing(ts) && Below(ts, INT_MAX) && (ts != [] ==> ts[0].id >= n)
    ensures NextAfter(ts, n) == if ts == [] then n else ts[|ts| - 1].id + 1
    decreases |ts|
  {
    if |ts| > 1 {
      assert ts[0].id < ts[1].id;
      NextAfterIs(ts[1..], ts[0].id + 1);
    }
  }

  /** The id counter a restart arrives at. */
  lemma NextAfterRestart(st: Store)
    requires Increasing(st.tasks) && Below(st.tasks, st.nextId) && st.nextId > 0
    ensures 0 < NextAfter(st.tasks, 1) <= st.nextId && Below(st.tasks, NextAfter(st.tasks, 1))
    ensures NextAfter(st.tasks, 1) == st.nextId
            <==> st.nextId == 1 || exists i | 0 <= i < |st.tasks| :: st.tasks[i].id == st.nextId - 1
  {
    NextAfterIs(st.tasks, 1);
    hide NextAfter;
    var n := |st.tasks|;
    if n > 0 {
      forall i | 0 <= i < n ensures st.tasks[i].id <= st.tasks[n - 1].id {
        assert i < n - 1 ==> st.tasks[i].id < st.tasks[n - 1].id;
      }
    }
  }

  /** A restart brings the same tasks back. The id counter falls back to just above the last one,
      so an id is given out again exactly when the task with the last id given was deleted. */
  lemma RestartIsLossless(st: Store)
    requires Inv(st)
    ensures var r := Load(st.file);
            && r.Some? && r.value.tasks == st.tasks && r.value.file == st.file && Inv(r.value)
            && r.value.nextId <= st.nextId
            && (r.value.nextId == st.nextId
                <==> st.nextId == 1 || exists i | 0 <= i < |st.tasks| :: st.tasks[i].id == st.nextId - 1)
  {
    NextAfterRestart(st);
    if st.file.Some? {
      TextLoads(st.tasks, 1);
    }
    hide Text, LoadLines, Increasing, Below, AllClean;
  }

  /** Several runs of the program, each starting from the file the one before left. */
  function Sessions(file: Option<string>, sessions: seq<seq<string>>): Option<Store>
    decreases |sessions|
  {
    match Load(file)
    case None => None
    case Some(st) =>
      if sessions == [] then Some(st) else Sessions(Run(st, sessions[0]).file, sessions[1..])
  }

  /** Every input is one line. */
  ghost predicate Typed(sessions: seq<seq<string>>) {
    forall i, j | 0 <= i < |sessions| && 0 <= j < |sessions[i]| :: '\n' !in sessions[i][j]
  }

  /** From the file of any such state on, no run ever meets a line it cannot read back. */
  lemma {:induction false} SessionsAreLossless(st: Store, sessions: seq<seq<string>>)
    requires Inv(st) && Typed(sessions)
    ensures Sessions(st.file, sessions).Some? && Inv(Sessions(st.file, sessions).value)
    ensures sessions == [] ==> Sessions(st.file, sessions).value.tasks == st.tasks
    decreases |sessions|
  {
    RestartIsLossless(st);
    if sessions != [] {
      var again := Load(st.file).value;
      RunKeepsInv(again, sessions[0]);
      hide Run, Load, Inv;
      SessionsAreLossless(Run(again, sessions[0]), sessions[1..]);
    }
  }

  lemma FirstStart()
    ensures Load(None).Some? && Inv(Load(None).value) && Load(None).value.file == None && Load(None).value.tasks == []
  {
  }

  /** The last of several runs starts from what the others leave. */
  lemma {:induction false} LastSession(file: Option<string>, sessions: seq<seq<string>>, last: seq<string>)
    ensures Sessions(file, sessions + [last])
            == match Sessions(file, sessions) case None => None case Some(st) => Load(Run(st, last).file)
    decreases |sessions|
  {
    hide Run, Load;
    if sessions == [] {
      assert [] + [last] == [last] && [last][1..] == [];
    } else if Load(file).Some? {
      assert (sessions + [last])[1..] == sessions[1..] + [last];
      LastSession(Run(Load(file).value, sessions[0]).file, sessions[1..], last);
    }
  }

  /** From the very first start, without a file, every start finds the tasks that the run before it
      ended with, whatever was typed. */
  lemma EveryStartIsLossless(sessions: seq<seq<string>>, last: seq<string>)
    requires Typed(sessions + [last])
    ensures var st, again := Sessions(None, sessions), Sessions(None, sessions + [last]);
            st.Some? && again.Some? && Inv(again.value) && again.value.tasks == Run(st.value, last).tasks
  {
    hide Run, Load, Inv;
    FirstStart();
    assert (sessions + [last])[..|sessions|] == sessions && (sessions + [last])[|sessions|] == last;
    SessionsAreLossless(Load(None).value, sessions);
    var st := Sessions(None, sessions).value;
    RunKeepsInv(st, last);
    RestartIsLossless(Run(st, last));
    LastSession(None, sessions, last);
  }

  // ---------- The tasks as a map ----------

  datatype Info = Info(description: string, priority: int32, dueDate: string)

  /** What the list holds under an id. */
  function Lookup(ts: seq<Task>, id: int32): Option<Info> {
    var i := IndexOf(ts, id);
    if i == |ts| then None else Some(Info(ts[i].description, ts[i].priority, ts[i].dueDate))
  }

  lemma {:induction false} LookupAppend(ts: seq<Task>, t: Task, id: int32)
    ensures Lookup(ts + [t], id)
            == if Lookup(ts, id).Some? then Lookup(ts, id)
               else if t.id == id then Some(Info(t.description, t.priority, t.dueDate)) else None
    decreases |ts|
  {
    if ts != [] {
      assert (ts + [t])[1..] == ts[1..] + [t];
      LookupAppend(ts[1..], t, id);
    }
  }

  lemma FoundAt(ts: seq<Task>, id: int32, k: nat)
    requires k <= |ts| && (k < |ts| ==> ts[k].id == id) && forall x | 0 <= x < k :: ts[x].id != id
    ensures IndexOf(ts, id) == k
  {
  }

  /** Each command changes what one id stands for: a new one, one that is gone, or one rewritten. */
  lemma AddTaskUpdatesTheMap(st: Store, info: Info, q: int32)
    requires Inv(st) && st.nextId < INT_MAX
    ensures Lookup(AddTask(st, info.description, info.priority, info.dueDate).tasks, q)
            == if q == st.nextId then Some(info) else Lookup(st.tasks, q)
  {
    LookupAppend(st.tasks, Task(st.nextId, info.description, info.priority, info.dueDate), q);
    hide Text;
  }

  lemma RemoveTaskUpdatesTheMap(st: Store, id: int32, q: int32)
    requires Inv(st)
    ensures Lookup(RemoveTask(st, id).tasks, q) == if q == id then None else Lookup(st.tasks, q)
  {
    hide Text, IndexOf;
    var i, j := IndexOf(st.tasks, id), IndexOf(st.tasks, q);
    if i < |st.tasks| {
      var ts := st.tasks[..i] + st.tasks[i + 1..];
      assert forall x | 0 <= x < |ts| :: ts[x] == st.tasks[if x < i then x else x + 1];
      FoundAt(ts, q, if q == id then |ts| else if j < i then j else j - 1);
    }
  }

  /** Without such a task the file is not written either. */
  lemma NothingToChange(st: Store, id: int32, info: Info)
    requires Lookup(st.tasks, id) == None
    ensures RemoveTask(st, id) == st && UpdateTask(st, id, info.description, info.priority, info.dueDate) == st
  {
    hide Text;
  }

  lemma UpdateTaskUpdatesTheMap(st: Store, id: int32, info: Info, q: int32)
    requires Inv(st)
    ensures Lookup(UpdateTask(st, id, info.description, info.priority, info.dueDate).tasks, q)
            == if q == id && Lookup(st.tasks, id).Some? then Some(info) else Lookup(st.tasks, q)
  {
    hide Text, IndexOf;
    var i, j := IndexOf(st.tasks, id), IndexOf(st.tasks, q);
    if i < |st.tasks| {
      FoundAt(st.tasks[i := Task(id, info.description, info.priority, info.dueDate)], q, j);
    }
  }

  /** The counter does fall back: the first id is given out again after a restart. */
  lemma RestartReusesAnId(d: Task)
    requires d.id == 1 && Clean(d)
    ensures var added := AddTask(Load(None).value, d.description, d.priority, d.dueDate);
            var deleted := RemoveTask(added, 1);
            && added.tasks == [d] && deleted.tasks == [] && deleted.nextId == 2
            && Load(deleted.file).Some? && Load(deleted.file).value.nextId == 1
  {
    var added := AddTask(Load(None).value, d.description, d.priority, d.dueDate);
    AddTaskKeepsInv(Load(None).value, d.description, d.priority, d.dueDate);
    RemoveTaskKeepsInv(added, 1);
    RestartIsLossless(RemoveTask(added, 1));
  }
}
