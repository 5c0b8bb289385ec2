/** `apihangar/registry.py`: endpoints declared in code rather than stored in
    the database, kept in a module-level url -> endpoint map. */
module Registry {
  import opened Wrappers
  import Utils
  import Core
  import Models

  /** A code-declared query: the query itself and its run options. The
      cache timeout is stored but never consulted. */
  datatype RegistryQuery = RegistryQuery(
    query: Core.Query,
    returnOne: bool,
    returnList: bool,
    cacheTimeoutSeconds: Option<int>)

  /** `Query.run(params)`: the engine's run with the query's `return_one`. */
  function QueryRun(engine: Core.Engine, q: RegistryQuery, params: Core.Params): Result<Core.RunOutput>
  {
    Core.Executed(engine, q.query, q.returnOne, params)
  }

  /** A code-declared endpoint. Its fields are set once, by the constructor. */
  class Endpoint {
    const name: string
    const description: string
    const url: string
    const queries: map<string, RegistryQuery>
    const permissions: seq<Utils.Permission>

    constructor (name: string, description: string, url: string,
                 queries: map<string, RegistryQuery>, permissions: seq<Utils.Permission>)
      ensures this.name == name && this.description == description && this.url == url
      ensures this.queries == queries && this.permissions == permissions
    {
      this.name := name;
      this.description := description;
      this.url := url;
      this.queries := queries;
      this.permissions := permissions;
    }

    /** `get_required_permissions`: the permissions given at construction. */
    function RequiredPermissions(): (r: seq<Utils.Permission>)
      ensures r == permissions
    {
      permissions
    }

    /** `run(params)`: runs every query, in whatever order the dict yields
        its keys, and files each output under the query's key. The first
        query to fail ends the run with its exception. */
    method Run(engine: Core.Engine, params: Core.Params) returns (r: Result<Models.EndpointOutput>)
      ensures r.Success? <==> forall k :: k in queries ==> QueryRun(engine, queries[k], params).Success?
      ensures r.Success? ==> r.value.queries.Keys == queries.Keys && r.value.results.Keys == queries.Keys
      ensures r.Success? ==> forall k :: k in queries ==>
                && r.value.queries[k] == QueryRun(engine, queries[k], params).value.sql
                && r.value.results[k] == QueryRun(engine, queries[k], params).value.result
      ensures r.Failure? ==> exists k :: k in queries && QueryRun(engine, queries[k], params) == Failure(r.error)
    {
      var sqls: map<string, string> := map[];
      var results: map<string, Core.QueryResult> := map[];
      var todo := queries.Keys;
      while todo != {}
        invariant todo <= queries.Keys
        invariant sqls.Keys == queries.Keys - todo && results.Keys == queries.Keys - todo
        invariant forall k :: k in sqls ==>
                    && QueryRun(engine, queries[k], params).Success?
                    && sqls[k] == QueryRun(engine, queries[k], params).value.sql
                    && results[k] == QueryRun(engine, queries[k], params).value.result
        decreases todo
      {
        var key :| key in todo;
        var query := queries[key];
        var ran := Core.Run(engine, query.query, query.returnOne, params);
        if ran.Failure? {
          return Failure(ran.error);
        }
        results := results[key := ran.value.result];
        sqls := sqls[key := ran.value.sql];
        todo := todo - {key};
      }
      return Success(Models.EndpointOutput(sqls, results));
    }
  }

  /** The module-level `registry` dict. */
  class Registry {
    var endpoints: map<string, Endpoint>

    constructor ()
      ensures endpoints == map[]
    {
      endpoints := map[];
    }

    /** `register_endpoint(url, name, description, queries, permissions)`:
        a new endpoint with exactly those fields, filed under url, replacing
        any earlier one there; every other entry is left as it was. */
    method RegisterEndpoint(url: string, name: string, description: string,
                            queries: map<string, RegistryQuery>, permissions: seq<Utils.Permission>)
      modifies this
      ensures endpoints.Keys == old(endpoints).Keys + {url}
      ensures fresh(endpoints[url])
      ensures endpoints[url].name == name && endpoints[url].description == description
      ensures endpoints[url].url == url && endpoints[url].queries == queries
      ensures endpoints[url].RequiredPermissions() == permissions
      ensures forall u :: u in old(endpoints) && u != url ==> endpoints[u] == old(endpoints)[u]
    {
      var endpoint := new Endpoint(name, description, url, queries, permissions);
      endpoints := endpoints[url := endpoint];
    }
  }
}
