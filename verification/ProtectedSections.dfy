/**
 Sections of code protected from interrupts.  Entering one puts its own handler in place of those for
 SIGINT and SIGTERM; that handler only remembers the signal; leaving restores the previous handlers and
 passes the remembered signal to the one it replaced.
 */
module ProtectedSections {
  import opened Prelude

  datatype Signal = SigInt | SigTerm

  /** One delivery of a signal, with the frame it interrupted. */
  datatype Arrival = Arrival(sig: Signal, frame: nat)

  /** What can stand in the handler table; a default or ignored disposition is no function and cannot be called. */
  datatype Handler = Callable(name: nat) | NotCallable | Section(id: nat)

  datatype Table = Table(onInt: Handler, onTerm: Handler) {
    function For(sig: Signal): Handler {
      if sig == SigInt then onInt else onTerm
    }
  }

  /** A section object: the signal it remembers and the handlers it replaced. */
  datatype Held = Held(last: Option<Arrival>, replaced: Table)

  /** The handler table, the section objects by name, the handler runs so far, and the failed handler calls. */
  datatype State = State(table: Table, sections: map<nat, Held>, ran: seq<(nat, Arrival)>, typeErrors: nat)

  /** Calling whatever stood in the table. */
  function Invoke(s: State, h: Handler, a: Arrival): State {
    match h
    case Callable(name) => s.(ran := s.ran + [(name, a)])
    case NotCallable => s.(typeErrors := s.typeErrors + 1)
    case Section(id) =>
      if id in s.sections then s.(sections := s.sections[id := s.sections[id].(last := Some(a))]) else s
  }

  /** A new section object. */
  function New(s: State, id: nat): State {
    s.(sections := s.sections[id := Held(None, s.table)])
  }

  function Enter(s: State, id: nat): State
    requires id in s.sections
  {
    s.(sections := s.sections[id := s.sections[id].(replaced := s.table)], table := Table(Section(id), Section(id)))
  }

  function Exit(s: State, id: nat): State
    requires id in s.sections
  {
    var held := s.sections[id];
    var restored := s.(table := held.replaced);
    if held.last.Some? then Invoke(restored, held.replaced.For(held.last.value.sig), held.last.value) else restored
  }

  // ----- Programs -----

  /** Code as signals see it: signals arrive, and sections are entered and left around more code. */
  datatype Item = Signals(arrival: Arrival) | Protected(id: nat, body: seq<Item>)

  function RunItem(s: State, item: Item): State
    decreases item, 1
  {
    match item
    case Signals(a) => Invoke(s, s.table.For(a.sig), a)
    case Protected(id, body) =>
      var inside := RunBody(Enter(New(s, id), id), body);
      if id in inside.sections then Exit(inside, id) else inside
  }

  function RunBody(s: State, items: seq<Item>): State
    decreases items, 0
  {
    if items == [] then s else RunBody(RunItem(s, items[0]), items[1..])
  }

  /** The signals that arrive while the code runs, in order. */
  function Arrivals(items: seq<Item>): seq<Arrival>
    decreases items, 0
  {
    if items == [] then [] else ItemArrivals(items[0]) + Arrivals(items[1..])
  }

  function ItemArrivals(item: Item): seq<Arrival>
    decreases item, 1
  {
    match item
    case Signals(a) => [a]
    case Protected(_, body) => Arrivals(body)
  }

  /** The section objects the code uses. */
  function Ids(items: seq<Item>): set<nat>
    decreases items, 0
  {
    if items == [] then {} else ItemIds(items[0]) + Ids(items[1..])
  }

  function ItemIds(item: Item): set<nat>
    decreases item, 1
  {
    match item
    case Signals(_) => {}
    case Protected(id, body) => {id} + Ids(body)
  }

  /** No section object is entered again while it is already in force. */
  predicate Nested(items: seq<Item>)
    decreases items, 0
  {
    items == [] || (ItemNested(items[0]) && Nested(items[1..]))
  }

  predicate ItemNested(item: Item)
    decreases item, 1
  {
    match item
    case Signals(_) => true
    case Protected(id, body) => id !in Ids(body) && Nested(body)
  }

  /** The last of a list of arrivals, or what was remembered before. */
  function LastOr(arrivals: seq<Arrival>, before: Option<Arrival>): Option<Arrival> {
    if arrivals == [] then before else Some(arrivals[|arrivals| - 1])
  }

  /** All that code may change while section `id` is in force: its memory, and section objects of its own. */
  ghost predicate OnlyRemembers(s: State, s': State, id: nat, own: set<nat>, arrivals: seq<Arrival>) {
    && s'.table == s.table && s'.ran == s.ran && s'.typeErrors == s.typeErrors
    && id in s.sections && id in s'.sections
    && s'.sections[id] == s.sections[id].(last := LastOr(arrivals, s.sections[id].last))
    && forall j :: j !in own && j != id ==>
         (j in s'.sections <==> j in s.sections) && (j in s.sections ==> s'.sections[j] == s.sections[j])
  }

  /** Leaving a section whose code has run hands its last signal to the enclosing section. */
  lemma {:induction false} InnerSectionHandsOn(s: State, id: nat, item: Item)
    requires ItemNested(item) && id !in ItemIds(item) && id in s.sections
    requires s.table == Table(Section(id), Section(id))
    ensures OnlyRemembers(s, RunItem(s, item), id, ItemIds(item), ItemArrivals(item))
    decreases item, 1
  {
    match item
    case Signals(a) =>
    case Protected(inner, body) =>
      var entered := Enter(New(s, inner), inner);
      BodyOnlyRemembers(entered, inner, body);
      hide RunBody, Ids, Arrivals, Nested;
  }

  /** Code run inside a section changes nothing but what the section remembers, which becomes the last signal. */
  lemma {:induction false} BodyOnlyRemembers(s: State, id: nat, items: seq<Item>)
    requires Nested(items) && id !in Ids(items) && id in s.sections
    requires s.table == Table(Section(id), Section(id))
    ensures OnlyRemembers(s, RunBody(s, items), id, Ids(items), Arrivals(items))
    decreases items, 0
  {
    if items != [] {
      InnerSectionHandsOn(s, id, items[0]);
      BodyOnlyRemembers(RunItem(s, items[0]), id, items[1..]);
      hide RunItem, ItemIds, ItemArrivals, ItemNested;
    }
  }

  /**
   The outermost section, whatever happens inside: the handler table is as before, and the handler that
   stood there for the last signal is called once with it, or none at all if no signal arrived.
   */
  lemma OutermostSection(s: State, id: nat, body: seq<Item>)
    requires ItemNested(Protected(id, body))
    requires !s.table.onInt.Section? && !s.table.onTerm.Section?
    ensures var s' := RunItem(s, Protected(id, body));
            var arrivals := Arrivals(body);
            && s'.table == s.table
            && (arrivals == [] ==> s'.ran == s.ran && s'.typeErrors == s.typeErrors)
            && (arrivals != [] ==>
                  var last := arrivals[|arrivals| - 1];
                  match s.table.For(last.sig)
                  case Callable(name) => s'.ran == s.ran + [(name, last)] && s'.typeErrors == s.typeErrors
                  case _ => s'.ran == s.ran && s'.typeErrors == s.typeErrors + 1)
  {
    BodyOnlyRemembers(Enter(New(s, id), id), id, body);
    hide RunBody, Ids, Arrivals, Nested;
  }

  /**
   The original handler runs, once and for the last signal, exactly when it can be called: under a
   default disposition, as SIGTERM usually has, the call fails and the signal is lost.
   */
  lemma OriginalRunsIffCallable(s: State, id: nat, body: seq<Item>)
    requires ItemNested(Protected(id, body)) && Arrivals(body) != []
    requires !s.table.onInt.Section? && !s.table.onTerm.Section?
    ensures var last := Arrivals(body)[|Arrivals(body)| - 1];
            var h := s.table.For(last.sig);
            h.Callable? <==> |RunItem(s, Protected(id, body)).ran| == |s.ran| + 1
    ensures RunItem(s, Protected(id, body)).typeErrors == s.typeErrors <==>
            s.table.For(Arrivals(body)[|Arrivals(body)| - 1].sig).Callable?
  {
    OutermostSection(s, id, body);
    hide RunItem, Arrivals, ItemNested;
  }

  // ----- Why sections must be fresh -----

  /** Entering a section again while it is in force makes it its own predecessor: the handlers never come back. */
  lemma ReentryNeverRestores(s: State, id: nat)
    ensures var twice := Enter(Enter(New(s, id), id), id);
            Exit(Exit(twice, id), id).table == Table(Section(id), Section(id))
  {
  }

  /** A section object used a second time still remembers the signal of the first, and calls the handler again. */
  lemma ReuseRepeatsSignal(s: State, id: nat, a: Arrival, name: nat)
    requires s.table == Table(Callable(name), Callable(name))
    ensures var once := Exit(RunItem(Enter(New(s, id), id), Signals(a)), id);
            && once.ran == s.ran + [(name, a)]
            && Exit(Enter(once, id), id).ran == s.ran + [(name, a), (name, a)]
  {
    assert (s.ran + [(name, a)]) + [(name, a)] == s.ran + [(name, a), (name, a)];
  }

  // ----- The object -----

  /** The process: its handler table and section objects, updated step by step. */
  class SignalRuntime {
    var table: Table
    var sections: map<nat, Held>
    var ran: seq<(nat, Arrival)>
    var typeErrors: nat

    constructor (table: Table)
      ensures View() == State(table, map[], [], 0)
    {
      this.table, sections, ran, typeErrors := table, map[], [], 0;
    }

    function View(): State
      reads this
    {
      State(table, sections, ran, typeErrors)
    }

    method Call(h: Handler, a: Arrival)
      modifies this
      ensures View() == Invoke(old(View()), h, a)
    {
      match h
      case Callable(name) => ran := ran + [(name, a)];
      case NotCallable => typeErrors := typeErrors + 1;
      case Section(id) =>
        if id in sections {
          sections := sections[id := Held(Some(a), sections[id].replaced)];
        }
    }

    method EnterSection(id: nat)
      requires id in sections
      modifies this
      ensures View() == Enter(old(View()), id)
    {
      var replaced := table;
      table := table.(onInt := Section(id));
      table := table.(onTerm := Section(id));
      sections := sections[id := sections[id].(replaced := replaced)];
    }

    method ExitSection(id: nat)
      requires id in sections
      modifies this
      ensures View() == Exit(old(View()), id)
    {
      var held := sections[id];
      table := table.(onInt := held.replaced.onInt);
      table := table.(onTerm := held.replaced.onTerm);
      if held.last.Some? {
        Call(held.replaced.For(held.last.value.sig), held.last.value);
      }
    }

    method DeliverSignal(a: Arrival)
      modifies this
      ensures View() == RunItem(old(View()), Signals(a))
    {
      Call(table.For(a.sig), a);
    }

    /** `with protect_section()`: a new object, entered, left after the code. */
    method Execute(item: Item)
      modifies this
      ensures View() == RunItem(old(View()), item)
      decreases item, 1
    {
      match item
      case Signals(a) => DeliverSignal(a);
      case Protected(id, body) =>
        sections := sections[id := Held(None, table)];
        EnterSection(id);
        ExecuteAll(body);
        if id in sections {
          ExitSection(id);
        }
    }

    method ExecuteAll(items: seq<Item>)
      modifies this
      ensures View() == RunBody(old(View()), items)
      decreases items, 0
    {
      if items != [] {
        Execute(items[0]);
        ExecuteAll(items[1..]);
      }
    }
  }
}
