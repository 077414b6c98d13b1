/** `src/step01_harvest.py`: a registry from handler names to handler
    classes. Registering a name binds it, a later registration of the same
    name replaces it, and looking up a name that is not bound fails. The
    class-level dictionary is modelled as a value the operations return. */
module Registry {
  import opened Wrappers
  import opened JsonValues

  /** A handler class: its name and what `harvest` of an instance returns
      for the given arguments. */
  datatype HandlerClass = HandlerClass(className: string, harvest: seq<Json> -> Json)

  /** A fresh instance of a handler class. */
  datatype Handler = Handler(cls: HandlerClass)

  type Handlers = map<string, HandlerClass>

  /** `HandlerRegistry.register(name, handler_cls)`. */
  function Register(handlers: Handlers, name: string, cls: HandlerClass): (r: Handlers)
    ensures name in r && r[name] == cls
    ensures forall n :: n != name ==> (n in r <==> n in handlers)
    ensures forall n :: n != name && n in handlers ==> r[n] == handlers[n]
  {
    handlers[name := cls]
  }

  /** `HandlerRegistry.get_handler(name)`: an instance of the bound class,
      ValueError for a name that is not bound. */
  function GetHandler(handlers: Handlers, name: string): (r: Result<Handler>)
    ensures r.Ok? <==> name in handlers
    ensures r.Err? ==> r.error == "ValueError"
    ensures r.Ok? ==> r.value.cls == handlers[name]
  {
    if name in handlers then Ok(Handler(handlers[name])) else Err("ValueError")
  }

  /** `harvest_data(handler_name, *args)`: what the handler's `harvest`
      returns. */
  function HarvestData(handlers: Handlers, name: string, args: seq<Json>): (r: Result<Json>)
    ensures r.Ok? <==> name in handlers
    ensures r.Ok? ==> r.value == handlers[name].harvest(args)
    ensures r.Err? ==> r.error == "ValueError"
  {
    var handler :- GetHandler(handlers, name);
    Ok(handler.cls.harvest(args))
  }

  /** `ExampleHandler`: its `harvest` prints a line and returns None. */
  const ExampleHandler: HandlerClass := HandlerClass("ExampleHandler", args => Null)

  /** The registry once the module is loaded. */
  const Initial: Handlers := Register(map[], "example", ExampleHandler)

  // ---------------------------------------------------------------------
  // properties

  /** After registering a name, looking it up gives the registered class,
      and every other name is looked up as before. */
  lemma RegisterThenGet(handlers: Handlers, name: string, cls: HandlerClass, other: string)
    ensures GetHandler(Register(handlers, name, cls), name) == Ok(Handler(cls))
    ensures other != name ==> GetHandler(Register(handlers, name, cls), other) == GetHandler(handlers, other)
  {
  }

  /** Registering a name twice keeps the second class. */
  lemma RegisterOverwrites(handlers: Handlers, name: string, first: HandlerClass, second: HandlerClass)
    ensures Register(Register(handlers, name, first), name, second) == Register(handlers, name, second)
  {
  }

  /** Registering different names commutes. */
  lemma RegisterCommutes(handlers: Handlers, a: string, ca: HandlerClass, b: string, cb: HandlerClass)
    requires a != b
    ensures Register(Register(handlers, a, ca), b, cb) == Register(Register(handlers, b, cb), a, ca)
  {
  }

  /** At load only `example` is bound, and harvesting with it returns None. */
  lemma InitialRegistry(name: string, args: seq<Json>)
    ensures GetHandler(Initial, name).Ok? <==> name == "example"
    ensures HarvestData(Initial, "example", args) == Ok(Null)
  {
  }
}
