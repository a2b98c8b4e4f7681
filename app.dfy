/** The PixelTodoApp controller: its task list, the current filter, and the
    ids held by the edit and delete dialogs, with one method per handler.
    The network is not modelled: each handler that calls the service takes
    the call's outcome as a parameter, and the ghost field `requests` keeps
    the requests handed to the service, in order. */
module App {
  import opened JsText
  import opened Sequences
  import opened Todos

  /** How a request to the service ended: a 2xx response carrying a payload,
      or a failure (a non-2xx status, or a transport error), which the
      request wrapper has already reported. */
  datatype Outcome<+T> = Success(payload: T) | Failure

  /** `response?.data` of the list request: an array of task records, or
      anything else (no body, no `data` field, a value that is not an array). */
  datatype ListData = TodoArray(items: seq<Todo>) | NotAnArray

  /** The body of a successful create request: a record wrapped in a `data`
      field, or the bare record. */
  datatype CreateResponse = Envelope(data: Todo) | BareRecord(record: Todo)

  /** A request the controller hands to the service: GET of the collection,
      POST of a new task, PUT of a full record to `/todos/{id}`, and DELETE
      of `/todos/{id}`. */
  datatype Request =
    | ListRequest
    | CreateRequest(title: string, description: string, isCompleted: bool)
    | UpdateRequest(id: int, body: Todo)
    | DeleteRequest(id: int)

  /** `response?.data || response`: the record the create handler appends. */
  function CreatedRecord(response: CreateResponse): (r: Todo)
    ensures response == Envelope(r) || response == BareRecord(r)
  {
    match response
    case Envelope(data) => data
    case BareRecord(record) => record
  }

  class PixelTodoApp {
    var todos: seq<Todo>
    var currentFilter: string
    var editingTodoId: Option<int>
    var deletingTodoId: Option<int>
    ghost var requests: seq<Request>

    /** The constructor's initial state, followed by the initial load that
        `init` starts. */
    constructor (initialLoad: Outcome<ListData>)
      ensures initialLoad.Success? && initialLoad.payload.TodoArray? ==> todos == initialLoad.payload.items
      ensures !(initialLoad.Success? && initialLoad.payload.TodoArray?) ==> todos == []
      ensures currentFilter == "all"
      ensures editingTodoId == None && deletingTodoId == None
      ensures requests == [ListRequest]
    {
      todos := [];
      currentFilter := "all";
      editingTodoId := None;
      deletingTodoId := None;
      requests := [];
      new;
      LoadTodos(initialLoad);
    }

    /** `loadTodos`: fetch the collection and replace the list; on failure
        the list is emptied. */
    method LoadTodos(outcome: Outcome<ListData>)
      modifies this`todos, this`requests
      ensures requests == old(requests) + [ListRequest]
      ensures outcome.Success? && outcome.payload.TodoArray? ==> todos == outcome.payload.items
      ensures !(outcome.Success? && outcome.payload.TodoArray?) ==> todos == []
    {
      requests := requests + [ListRequest];
      match outcome {
        case Success(data) =>
          todos := if data.TodoArray? then data.items else [];
        case Failure =>
          todos := [];
      }
    }

    /** `createTodo`: trim the form fields; with an empty title nothing is
        sent and nothing changes. Otherwise POST the new task, not completed,
        and on success append the record the service returned. */
    method CreateTodo(title: string, description: string, outcome: Outcome<CreateResponse>)
      modifies this`todos, this`requests
      ensures Trim(title) == [] ==> requests == old(requests) && todos == old(todos)
      ensures Trim(title) != [] ==>
        requests == old(requests) + [CreateRequest(Trim(title), Trim(description), false)]
      ensures Trim(title) != [] && outcome.Success? ==>
        todos == old(todos) + [CreatedRecord(outcome.payload)]
      ensures outcome.Failure? ==> todos == old(todos)
    {
      var sentTitle := Trim(title);
      var sentDescription := Trim(description);
      if sentTitle == [] {
        return;
      }
      requests := requests + [CreateRequest(sentTitle, sentDescription, false)];
      if outcome.Success? {
        var newTodo := CreatedRecord(outcome.payload);
        todos := todos + [newTodo];
      }
    }

    /** `updateTodo`: trim the edit form's fields; with an empty title
        nothing is sent and nothing changes. Otherwise PUT the edited record;
        on success merge it into the first record with its id and close the
        edit dialog. On failure the list and the dialog stay as they were. */
    method UpdateTodo(id: int, title: string, description: string, isCompleted: bool,
                      outcome: Outcome<()>)
      modifies this`todos, this`requests, this`editingTodoId
      ensures Trim(title) == [] ==>
        requests == old(requests) && todos == old(todos) && editingTodoId == old(editingTodoId)
      ensures Trim(title) != [] ==>
        requests == old(requests) + [UpdateRequest(id, Todo(id, Trim(title), Trim(description), isCompleted))]
      ensures Trim(title) != [] && outcome.Success? ==>
        todos == ReplaceFirst(old(todos), Todo(id, Trim(title), Trim(description), isCompleted))
        && editingTodoId == None
      ensures outcome.Failure? ==> todos == old(todos) && editingTodoId == old(editingTodoId)
    {
      var todoData := Todo(id, Trim(title), Trim(description), isCompleted);
      if todoData.title == [] {
        return;
      }
      requests := requests + [UpdateRequest(id, todoData)];
      if outcome.Success? {
        ReplaceFirstAtIndex(todos, todoData);
        var index := IndexOf(todos, todoData.id);
        if index.Some? {
          // the spread {...todos[index], ...todoData} overwrites all four fields
          todos := todos[index.value := todoData];
        }
        CloseEditModal();
      }
    }

    /** `deleteTodo`: DELETE the record; on success drop every record with
        the id and close the delete dialog. On failure nothing changes. */
    method DeleteTodo(id: int, outcome: Outcome<()>)
      modifies this`todos, this`requests, this`deletingTodoId
      ensures requests == old(requests) + [DeleteRequest(id)]
      ensures outcome.Success? ==> todos == Without(old(todos), id) && deletingTodoId == None
      ensures outcome.Failure? ==> todos == old(todos) && deletingTodoId == old(deletingTodoId)
    {
      requests := requests + [DeleteRequest(id)];
      if outcome.Success? {
        todos := Without(todos, id);
        CloseDeleteModal();
      }
    }

    /** `toggleComplete`: with no record holding the id nothing is sent and
        nothing changes. Otherwise PUT the record with its flag negated and,
        on success, put that copy in its place. */
    method ToggleComplete(id: int, outcome: Outcome<()>)
      modifies this`todos, this`requests
      ensures IndexOf(old(todos), id).None? ==> requests == old(requests) && todos == old(todos)
      ensures IndexOf(old(todos), id).Some? ==>
        requests == old(requests) + [UpdateRequest(id, Flipped(old(todos)[IndexOf(old(todos), id).value]))]
      ensures outcome.Success? ==> todos == Toggled(old(todos), id)
      ensures outcome.Failure? ==> todos == old(todos)
    {
      var found := IndexOf(todos, id);
      if found.None? {
        return;
      }
      var updatedTodo := Flipped(todos[found.value]);
      requests := requests + [UpdateRequest(id, updatedTodo)];
      if outcome.Success? {
        ReplaceFirstAtIndex(todos, updatedTodo);
        var index := IndexOf(todos, id);
        if index.Some? {
          todos := todos[index.value := updatedTodo];
        }
      }
    }

    /** `getFilteredTodos`: the records the current filter shows. */
    function FilteredTodos(): (r: seq<Todo>)
      reads this
      ensures forall t :: t in r <==> t in todos && Shows(currentFilter, t)
    {
      Filtered(todos, currentFilter)
    }

    /** `setFilter`, its state part: any string may become the filter. */
    method SetFilter(filter: string)
      modifies this`currentFilter
      ensures currentFilter == filter
    {
      currentFilter := filter;
    }

    /** The counters `updateStats` writes to the page. */
    function Stats(): (c: Counts)
      reads this
      ensures c.total == |todos| && 0 <= c.completed <= c.total
      ensures c.pending == |Filter(todos, IsPending)|
      ensures c.completed + c.pending == c.total
    {
      CountStats(todos)
    }

    /** `openEditModal`: open the dialog only for an id some record holds. */
    method OpenEditModal(id: int)
      modifies this`editingTodoId
      ensures editingTodoId == if IndexOf(todos, id).Some? then Some(id) else old(editingTodoId)
    {
      var found := IndexOf(todos, id);
      if found.None? {
        return;
      }
      editingTodoId := Some(id);
    }

    /** `closeEditModal`. */
    method CloseEditModal()
      modifies this`editingTodoId
      ensures editingTodoId == None
    {
      editingTodoId := None;
    }

    /** `openDeleteModal`: no lookup; any id is stored. */
    method OpenDeleteModal(id: int)
      modifies this`deletingTodoId
      ensures deletingTodoId == Some(id)
    {
      deletingTodoId := Some(id);
    }

    /** `closeDeleteModal`. */
    method CloseDeleteModal()
      modifies this`deletingTodoId
      ensures deletingTodoId == None
    {
      deletingTodoId := None;
    }

    /** `confirmDelete`: delete the stored id when it is truthy; as a number
        0 is falsy, so a stored id 0 is skipped like no id at all. */
    method ConfirmDelete(outcome: Outcome<()>)
      modifies this`todos, this`requests, this`deletingTodoId
      ensures old(deletingTodoId).None? || old(deletingTodoId) == Some(0) ==>
        todos == old(todos) && requests == old(requests) && deletingTodoId == old(deletingTodoId)
      ensures old(deletingTodoId).Some? && old(deletingTodoId) != Some(0) ==>
        var id := old(deletingTodoId).value;
        requests == old(requests) + [DeleteRequest(id)]
        && (outcome.Success? ==> todos == Without(old(todos), id) && deletingTodoId == None)
        && (outcome.Failure? ==> todos == old(todos) && deletingTodoId == old(deletingTodoId))
    {
      if deletingTodoId.Some? && deletingTodoId.value != 0 {
        DeleteTodo(deletingTodoId.value, outcome);
      }
    }
  }

  /** Two toggles of the same record issue two update requests and, when
      both succeed, leave the list as it was. */
  method ToggleTwice(app: PixelTodoApp, id: int)
    modifies app`todos, app`requests
    ensures IndexOf(old(app.todos), id).None? ==> app.requests == old(app.requests)
    ensures IndexOf(old(app.todos), id).Some? ==>
      var i := IndexOf(old(app.todos), id).value;
      app.requests == old(app.requests)
        + [UpdateRequest(id, Flipped(old(app.todos)[i])), UpdateRequest(id, old(app.todos)[i])]
    ensures app.todos == old(app.todos)
  {
    ghost var before := app.todos;
    app.ToggleComplete(id, Success(()));
    ghost var middle := app.todos;
    ToggledChanges(before, id);
    IndexOfSameIds(before, middle, id);
    app.ToggleComplete(id, Success(()));
    ToggledTwice(before, id);
  }
}
