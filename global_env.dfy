/** The process-wide registry of src/global_env.cpp and
    include/natalie/global_env.hpp: two name-keyed maps, for global
    variables and for interned symbols, and four singleton slots. A null
    pointer is None. */
module GlobalEnvironment {
  import opened Wrappers
  import opened Objects

  /** `std::unordered_map::find`: the mapped value, or nothing. */
  function Find(m: map<string, Value>, name: string): (r: Option<Value>)
    ensures r.Some? <==> name in m
    ensures r.Some? ==> r.value == m[name]
  {
    if name in m then Some(m[name]) else None
  }

  /** A read after `m[name] = value` answers the value for that name and
      what it answered before for every other name. */
  lemma FindAfterAssign(m: map<string, Value>, name: string, value: Value, probe: string)
    ensures Find(m[name := value], probe) == if probe == name then Some(value) else Find(m, probe)
  {
  }

  /** A second assignment to a name replaces the first. */
  lemma AssignOverwrites(m: map<string, Value>, name: string, v1: Value, v2: Value)
    ensures m[name := v1][name := v2] == m[name := v2]
  {
  }

  /** Nothing was ever stored in an empty map. */
  lemma FindInEmpty(name: string)
    ensures Find(map[], name) == None
  {
  }

  class GlobalEnv {
    var globals: map<string, Value>
    var symbols: map<string, Value>
    var objectClass: Option<Value>
    var nilObj: Option<Value>
    var trueObj: Option<Value>
    var falseObj: Option<Value>

    /** The constructor allocates the two empty maps; the four slots keep
        their null initialisers. */
    constructor ()
      ensures globals == map[] && symbols == map[]
      ensures objectClass == None && nilObj == None && trueObj == None && falseObj == None
    {
      globals := map[];
      symbols := map[];
      objectClass := None;
      nilObj := None;
      trueObj := None;
      falseObj := None;
    }

    /** get_symbol: the value of the latest add_symbol for the name, or null. */
    function GetSymbol(name: string): (r: Option<Value>)
      reads this
      ensures r.Some? <==> name in symbols
      ensures r.Some? ==> r.value == symbols[name]
    {
      Find(symbols, name)
    }

    /** add_symbol: assigns the name in the symbol map only. */
    method AddSymbol(name: string, value: Value)
      modifies this
      ensures GetSymbol(name) == Some(value)
      ensures forall n :: n != name ==> GetSymbol(n) == old(GetSymbol(n))
      ensures forall n :: GlobalGet(n) == old(GlobalGet(n))
      ensures symbols == old(symbols)[name := value]
      ensures globals == old(globals)
      ensures objectClass == old(objectClass) && nilObj == old(nilObj)
      ensures trueObj == old(trueObj) && falseObj == old(falseObj)
    {
      symbols := symbols[name := value];
    }

    /** global_get: the value of the latest global_set for the name, or null. */
    function GlobalGet(name: string): (r: Option<Value>)
      reads this
      ensures r.Some? <==> name in globals
      ensures r.Some? ==> r.value == globals[name]
    {
      Find(globals, name)
    }

    /** global_set: assigns the name in the globals map only. */
    method GlobalSet(name: string, value: Value)
      modifies this
      ensures GlobalGet(name) == Some(value)
      ensures forall n :: n != name ==> GlobalGet(n) == old(GlobalGet(n))
      ensures forall n :: GetSymbol(n) == old(GetSymbol(n))
      ensures globals == old(globals)[name := value]
      ensures symbols == old(symbols)
      ensures objectClass == old(objectClass) && nilObj == old(nilObj)
      ensures trueObj == old(trueObj) && falseObj == old(falseObj)
    {
      globals := globals[name := value];
    }

    function Object(): (r: Option<Value>)
      reads this
    {
      objectClass
    }

    method SetObject(c: Value)
      modifies this
      ensures Object() == Some(c)
      ensures objectClass == Some(c)
      ensures globals == old(globals) && symbols == old(symbols)
      ensures nilObj == old(nilObj) && trueObj == old(trueObj) && falseObj == old(falseObj)
    {
      objectClass := Some(c);
    }

    function NilObj(): (r: Option<Value>)
      reads this
    {
      nilObj
    }

    method SetNilObj(v: Value)
      modifies this
      ensures NilObj() == Some(v)
      ensures nilObj == Some(v)
      ensures globals == old(globals) && symbols == old(symbols)
      ensures objectClass == old(objectClass) && trueObj == old(trueObj) && falseObj == old(falseObj)
    {
      nilObj := Some(v);
    }

    function TrueObj(): (r: Option<Value>)
      reads this
    {
      trueObj
    }

    method SetTrueObj(v: Value)
      modifies this
      ensures TrueObj() == Some(v)
      ensures trueObj == Some(v)
      ensures globals == old(globals) && symbols == old(symbols)
      ensures objectClass == old(objectClass) && nilObj == old(nilObj) && falseObj == old(falseObj)
    {
      trueObj := Some(v);
    }

    function FalseObj(): (r: Option<Value>)
      reads this
    {
      falseObj
    }

    method SetFalseObj(v: Value)
      modifies this
      ensures FalseObj() == Some(v)
      ensures falseObj == Some(v)
      ensures globals == old(globals) && symbols == old(symbols)
      ensures objectClass == old(objectClass) && nilObj == old(nilObj) && trueObj == old(trueObj)
    {
      falseObj := Some(v);
    }
  }

  /** A run of the registry: reads of names never set are null, reads
      after writes answer the latest write, the two maps do not interfere,
      and each singleton setter is read back by its getter. */
  method RegistryScenario(a: Value, b: Value, c: Value, n: Value)
    returns (unset: Option<Value>, latest: Option<Value>, symbol: Option<Value>, crossed: Option<Value>, nilRead: Option<Value>)
    ensures unset == None && latest == Some(b) && symbol == Some(c) && crossed == None
    ensures nilRead == Some(n)
  {
    var env := new GlobalEnv();
    unset := env.GlobalGet("$x");
    env.GlobalSet("$x", a);
    env.GlobalSet("$x", b);
    env.AddSymbol("x", c);
    latest := env.GlobalGet("$x");
    symbol := env.GetSymbol("x");
    crossed := env.GetSymbol("$x");
    env.SetObject(a);
    env.SetNilObj(n);
    env.SetTrueObj(b);
    nilRead := env.NilObj();
  }
}
