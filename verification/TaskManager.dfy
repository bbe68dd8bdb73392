/** The task manager as an object: the loops that find, save and load tasks refine the functions on
    its state. */
module TaskManager {
  import opened Options
  import opened Decimal
  import Model = TaskStore

  class TaskManager {
    var tasks: seq<Model.Task>
    var nextId: int32
    /** What `task.txt` holds. */
    var file: Option<string>
    /** Whether every line read so far has a defined meaning. */
    var defined: bool

    function State(): Model.Store
      reads this
    {
      Model.Store(tasks, nextId, file)
    }

    constructor (file: Option<string>)
      ensures defined == Model.Load(file).Some?
      ensures defined ==> State() == Model.Load(file).value
    {
      tasks, nextId, this.file, defined := [], 1, file, true;
      new;
      LoadTasks();
    }

    method LoadTasks()
      requires tasks == [] && nextId == 1 && defined
      modifies this
      ensures defined == Model.Load(old(file)).Some?
      ensures defined ==> State() == Model.Load(old(file)).value
    {
      if file != None {
        ReadLines(file.value);
      }
    }

    /** The loop in `LoadTasks`. */
    method ReadLines(text: string)
      requires defined
      modifies `tasks, `nextId, `defined
      ensures (if defined then Model.Loaded(tasks, nextId) else Model.Undefined)
              == Model.After(old(tasks), Model.LoadLines(text, old(nextId)))
    {
      ghost var all := Model.After(tasks, Model.LoadLines(text, nextId));
      var left := text;
      hide Model.LoadLines, Model.LoadLine, Model.Cut, Model.Rest, Model.After, Model.Above;
      while left != "" && defined
        invariant all == if defined then Model.After(tasks, Model.LoadLines(left, nextId)) else Model.Undefined
        decreases |left|
      {
        Model.LoadLinesStep(tasks, left, nextId);
        Model.RestIsShorter(left, '\n');
        var (line, rest) := Model.Cut(left, '\n');
        left := Model.Rest(rest);
        if line != "" {
          var t := Model.LoadLine(line);
          defined := t != None && !(nextId <= t.value.id == Model.INT_MAX);
          if defined {
            Model.AboveIs(t.value.id, nextId);
            if t.value.id >= nextId {
              nextId := t.value.id + 1;
            }
            tasks := tasks + [t.value];
          }
        }
      }
      Model.LoadLinesEnd(tasks, nextId);
    }

    method SaveTasks()
      modifies this`file
      ensures State() == Model.Saved(old(State()))
    {
      var out := "";
      hide Model.SaveLine;
      for i := 0 to |tasks|
        invariant out == Model.Text(tasks[..i])
      {
        Model.TextTake(tasks, i);
        out := out + Model.SaveLine(tasks[i]) + ['\n'];
      }
      assert tasks[..|tasks|] == tasks;
      file := Some(out);
    }

    method FindTask(id: int32) returns (i: nat)
      ensures i == Model.IndexOf(tasks, id)
    {
      i := 0;
      while i < |tasks| && tasks[i].id != id
        invariant i <= |tasks| && forall j | 0 <= j < i :: tasks[j].id != id
      {
        i := i + 1;
      }
      Model.FoundAt(tasks, id, i);
    }

    method AddTask(description: string, priority: int32, dueDate: string)
      requires nextId < Model.INT_MAX
      modifies this
      ensures State() == Model.AddTask(old(State()), description, priority, dueDate)
    {
      var task := Model.Task(nextId, description, priority, dueDate);
      nextId := nextId + 1;
      tasks := tasks + [task];
      SaveTasks();
    }

    method RemoveTask(id: int32) returns (found: bool)
      modifies this
      ensures State() == Model.RemoveTask(old(State()), id) && (found <==> Model.IndexOf(old(tasks), id) < |old(tasks)|)
    {
      var i := FindTask(id);
      found := i != |tasks|;
      if found {
        tasks := tasks[..i] + tasks[i + 1..];
        SaveTasks();
      }
    }

    method UpdateTask(id: int32, description: string, priority: int32, dueDate: string) returns (found: bool)
      modifies this
      ensures State() == Model.UpdateTask(old(State()), id, description, priority, dueDate)
      ensures found <==> Model.IndexOf(old(tasks), id) < |old(tasks)|
    {
      var i := FindTask(id);
      found := i != |tasks|;
      if found {
        tasks := tasks[i := Model.Task(id, description, priority, dueDate)];
        SaveTasks();
      }
    }

    method AddCommand(args: string) returns (reply: Model.Reply)
      modifies this
      ensures (State(), reply) == Model.Add(old(State()), args)
    {
      var (description, r) := Model.Cut(args, ',');
      if r == None {
        return Model.BadFormat;
      }
      var (text, date) := Model.Cut(r.value, ',');
      if date == None {
        return Model.BadFormat;
      }
      var priority := Model.ScanInt(text);
      if !priority.Number? {
        return Model.Thrown;
      }
      if nextId == Model.INT_MAX {
        return Model.Overflowed;
      }
      AddTask(description, priority.value, date.value);
      reply := Model.Added;
    }

    method DeleteCommand(args: string) returns (reply: Model.Reply)
      modifies this
      ensures (State(), reply) == Model.Delete(old(State()), args)
    {
      var id := Model.ScanInt(args);
      if !id.Number? {
        return Model.Thrown;
      }
      if id.rest != [] {
        return Model.BadFormat;
      }
      var found := RemoveTask(id.value);
      reply := if found then Model.Deleted else Model.NotFound;
    }

    method UpdateCommand(args: string) returns (reply: Model.Reply)
      modifies this
      ensures (State(), reply) == Model.Update(old(State()), args)
    {
      var (idText, r) := Model.Cut(args, ',');
      if r == None {
        return Model.BadFormat;
      }
      var (description, s) := Model.Cut(r.value, ',');
      if s == None {
        return Model.BadFormat;
      }
      var (text, date) := Model.Cut(s.value, ',');
      if date == None {
        return Model.BadFormat;
      }
      var id, priority := Model.ScanInt(idText), Model.ScanInt(text);
      if !id.Number? || !priority.Number? {
        return Model.Thrown;
      }
      var found := UpdateTask(id.value, description, priority.value, date.value);
      reply := if found then Model.Updated else Model.NotFound;
    }

    /** The loop in `main`. */
    method CommandLoop(inputs: seq<string>)
      modifies this
      ensures State() == Model.Run(old(State()), inputs)
    {
      var i, reply := 0, Model.Silent;
      while i < |inputs| && !Model.Ends(reply)
        invariant i <= |inputs|
        invariant Model.Run(old(State()), inputs)
                  == if Model.Ends(reply) then State() else Model.Run(State(), inputs[i..])
      {
        reply := Execute(inputs[i]);
        assert inputs[i..][1..] == inputs[i + 1..];
        i := i + 1;
      }
    }

    method Execute(input: string) returns (reply: Model.Reply)
      modifies this
      ensures (State(), reply) == Model.Execute(old(State()), input)
    {
      if input == "" {
        return Model.Silent;
      }
      if input == "exit" || input == "quit" {
        return Model.Bye;
      }
      var (name, rest) := Model.Cut(input, ' ');
      var args := Model.Rest(rest);
      if name == "add" {
        reply := AddCommand(args);
      } else if name == "delete" {
        reply := DeleteCommand(args);
      } else if name == "list" {
        reply := Model.List(State(), args).1;
      } else if name == "update" {
        reply := UpdateCommand(args);
      } else {
        reply := Model.Unknown;
      }
    }
  }
}
