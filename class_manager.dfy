/**
 * `ClassManager.getHandler`: a cache of handler instances by client name that builds
 * and caches a handler the first time a client is asked for. The static synchronized map
 * is the `handlersCache` field of one `Registry` object; the configuration loader and the
 * reflective class loading it calls are the `Factory` the registry is given.
 */
module ClassManager {
  import opened Wrappers
  import opened Handlers

  /** A client's configuration, as the string entries the core looks up. */
  datatype Configuration = Configuration(entries: map<string, string>)

  /** What `Configuration.buildConfiguration` throws. */
  datatype ConfigFault = ConfigurationFault(message: string) | InvalidClient(message: string)

  /** The step of building a handler that failed, with the cause where the core keeps it. */
  datatype BuildStage = LoadConfiguration(cause: ConfigFault) | LoadClass | Instantiate

  /** The `ConfigurationException` `getHandler` throws. */
  datatype ConfigurationException = ConfigurationException(message: string, stage: BuildStage)

  /**
   * The code `getHandler` calls and that lies outside this model: loading a client's
   * configuration, whether a class of a given name can be loaded, and calling its
   * `(Configuration)` constructor, which may throw. Configurations and the class path
   * are taken as fixed: each of these gives the same answer every time it is asked.
   */
  datatype Factory = Factory(
    buildConfiguration: string -> Result<Configuration, ConfigFault>,
    classExists: string -> bool,
    newInstance: (string, Configuration) -> Option<Handler>)

  const ConfigurationMessage := "There was an issue loading the configuration for the client."

  function ClassMessage(client: string): string {
    "There was an issue loading the oauth2 handler class for client: " + client
  }

  function InstantiateMessage(client: string): string {
    "There was an issue instantiating the oauth2 handler class for client: " + client
  }

  /** The configuration key naming a client's handler class. */
  function HandlerClassKey(client: string): string {
    "classes.handlers." + client
  }

  /** A handler built for a client, with the class name and configuration it was built from. */
  datatype Built = Built(className: string, config: Configuration, handler: Handler)

  /**
   * Building a client's handler: load its configuration, load the class the configuration
   * names, construct it with the configuration. Each step's failure becomes a
   * `ConfigurationException` with that step's message; a configuration failure of either
   * kind (including `InvalidClientException`) is rewrapped the same way.
   */
  function Build(f: Factory, client: string): (r: Result<Built, ConfigurationException>)
    ensures r.Success? ==>
      && f.buildConfiguration(client) == Success(r.value.config)
      && HandlerClassKey(client) in r.value.config.entries
      && r.value.className == r.value.config.entries[HandlerClassKey(client)]
      && f.classExists(r.value.className)
      && f.newInstance(r.value.className, r.value.config) == Some(r.value.handler)
    ensures f.buildConfiguration(client).Failure? ==>
      r == Failure(ConfigurationException(ConfigurationMessage, LoadConfiguration(f.buildConfiguration(client).error)))
    ensures r.Failure? && r.error.stage.LoadClass? ==>
      r.error.message == ClassMessage(client) && f.buildConfiguration(client).Success?
    ensures r.Failure? && r.error.stage.Instantiate? ==>
      r.error.message == InstantiateMessage(client) && f.buildConfiguration(client).Success?
    ensures f.buildConfiguration(client).Success? ==>
      var config := f.buildConfiguration(client).value;
      var key := HandlerClassKey(client);
      && ((key !in config.entries || !f.classExists(config.entries[key])) <==> r.Failure? && r.error.stage.LoadClass?)
      && (key in config.entries && f.classExists(config.entries[key]) ==>
            match f.newInstance(config.entries[key], config)
            case None => r.Failure? && r.error.stage.Instantiate?
            case Some(handler) => r == Success(Built(config.entries[key], config, handler)))
  {
    match f.buildConfiguration(client)
    case Failure(fault) => Failure(ConfigurationException(ConfigurationMessage, LoadConfiguration(fault)))
    case Success(config) =>
      var key := HandlerClassKey(client);
      if key !in config.entries || !f.classExists(config.entries[key]) then
        Failure(ConfigurationException(ClassMessage(client), LoadClass))
      else
        var name := config.entries[key];
        match f.newInstance(name, config)
        case None => Failure(ConfigurationException(InstantiateMessage(client), Instantiate))
        case Some(handler) => Success(Built(name, config, handler))
  }

  /** A handler object held in the cache. */
  class HandlerInstance {
    const className: string
    const config: Configuration
    const handler: Handler

    constructor (className: string, config: Configuration, handler: Handler)
      ensures this.className == className && this.config == config && this.handler == handler
    {
      this.className := className;
      this.config := config;
      this.handler := handler;
    }
  }

  /** What `getHandler` yields for `client` when the cache holds `cache`. */
  function Resolve(cache: map<string, HandlerInstance>, f: Factory, client: string): Result<Handler, ConfigurationException> {
    if client in cache then Success(cache[client].handler)
    else match Build(f, client)
      case Failure(e) => Failure(e)
      case Success(b) => Success(b.handler)
  }

  /** The handler cache. */
  class Registry {
    const factory: Factory
    var handlersCache: map<string, HandlerInstance>
    /** The clients a handler was constructed for, in the order of construction. */
    ghost var constructed: seq<string>

    /** At most one handler was ever constructed per client, and it is the cached one. */
    ghost predicate Valid()
      reads this
    {
      && (forall i, j | 0 <= i < j < |constructed| :: constructed[i] != constructed[j])
      && handlersCache.Keys == set c | c in constructed
    }

    constructor (factory: Factory)
      ensures Valid()
      ensures this.factory == factory && handlersCache == map[] && constructed == []
    {
      this.factory := factory;
      handlersCache := map[];
      constructed := [];
    }

    /**
     * `getHandler`: a cached handler is returned as it is; otherwise one is built, cached
     * and returned, and when building fails nothing is cached. The re-check of the cache
     * under the lock finds what the first check found when calls do not overlap.
     */
    method GetHandler(client: string) returns (r: Result<HandlerInstance, ConfigurationException>)
      requires Valid()
      modifies this
      ensures Valid()
      ensures old(constructed) <= constructed
      ensures r.Success? <==> Resolve(old(handlersCache), factory, client).Success?
      ensures r.Success? ==> r.value.handler == Resolve(old(handlersCache), factory, client).value
      ensures r.Failure? ==> r.error == Resolve(old(handlersCache), factory, client).error
      ensures client in old(handlersCache) ==>
        r == Success(old(handlersCache)[client]) && handlersCache == old(handlersCache) && constructed == old(constructed)
      ensures client !in old(handlersCache) && r.Failure? ==>
        handlersCache == old(handlersCache) && constructed == old(constructed)
      ensures client !in old(handlersCache) && r.Success? ==>
        && fresh(r.value)
        && Build(factory, client) == Success(Built(r.value.className, r.value.config, r.value.handler))
        && handlersCache == old(handlersCache)[client := r.value]
        && constructed == old(constructed) + [client]
    {
      if client in handlersCache {
        return Success(handlersCache[client]);
      }
      var loaded := factory.buildConfiguration(client);
      if loaded.Failure? {
        return Failure(ConfigurationException(ConfigurationMessage, LoadConfiguration(loaded.error)));
      }
      var config := loaded.value;
      var key := HandlerClassKey(client);
      if key !in config.entries || !factory.classExists(config.entries[key]) {
        return Failure(ConfigurationException(ClassMessage(client), LoadClass));
      }
      var name := config.entries[key];
      var instance := factory.newInstance(name, config);
      if instance.None? {
        return Failure(ConfigurationException(InstantiateMessage(client), Instantiate));
      }
      var handler := new HandlerInstance(name, config, instance.value);
      handlersCache := handlersCache[client := handler];
      constructed := constructed + [client];
      r := Success(handler);
    }
  }

  /**
   * Asking twice for the same client gives the same answer, the same instance when it
   * succeeds, and constructs at most one handler.
   */
  method GetHandlerTwice(registry: Registry, client: string)
    returns (first: Result<HandlerInstance, ConfigurationException>, second: Result<HandlerInstance, ConfigurationException>)
    requires registry.Valid()
    modifies registry
    ensures registry.Valid()
    ensures second == first
    ensures |registry.constructed| <= |old(registry.constructed)| + 1
    ensures first.Failure? ==> registry.handlersCache == old(registry.handlersCache)
  {
    first := registry.GetHandler(client);
    second := registry.GetHandler(client);
  }
}
