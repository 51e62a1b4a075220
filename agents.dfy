/**
 * The agent catalogue and its lookups (`lib/agents.ts`). An agent's id is
 * numeric in the REST catalogue and a string in the chat composer, so the
 * record is generic over the type of its id.
 */
module Agents {
  import opened Wrappers
  import opened Text
  import opened JsNumbers

  datatype Agent<Id> = Agent(
    id: Id,
    code: string,
    name: string,
    handle: string,
    description: string,
    tags: seq<string>,
    capabilities: seq<string>)

  /** `i` is the position of the first element of `s` satisfying `p`. */
  ghost predicate IsFirstMatch<T>(s: seq<T>, p: T -> bool, i: int)
  {
    0 <= i < |s| && p(s[i]) && forall j :: 0 <= j < i ==> !p(s[j])
  }

  /** `Array.prototype.find`: the first element satisfying `p`, if any. */
  function FindFirst<T>(s: seq<T>, p: T -> bool): (r: Option<T>)
    ensures r.None? <==> forall i :: 0 <= i < |s| ==> !p(s[i])
    ensures r.Some? ==> exists i :: IsFirstMatch(s, p, i) && s[i] == r.value
  {
    if s == [] then None
    else if p(s[0]) then
      assert IsFirstMatch(s, p, 0);
      Some(s[0])
    else
      var r := FindFirst(s[1..], p);
      FindFirstShift(s, p, r);
      r
  }

  lemma {:induction false} FindFirstShift<T>(s: seq<T>, p: T -> bool, r: Option<T>)
    requires s != [] && !p(s[0])
    requires r.None? <==> forall i :: 0 <= i < |s| - 1 ==> !p(s[1..][i])
    requires r.Some? ==> exists i :: IsFirstMatch(s[1..], p, i) && s[1..][i] == r.value
    ensures r.None? <==> forall i :: 0 <= i < |s| ==> !p(s[i])
    ensures r.Some? ==> exists i :: IsFirstMatch(s, p, i) && s[i] == r.value
  {
    if r.Some? {
      var i :| IsFirstMatch(s[1..], p, i) && s[1..][i] == r.value;
      assert IsFirstMatch(s, p, i + 1);
    } else {
      forall i | 0 <= i < |s| ensures !p(s[i]) {
        if i > 0 { assert s[i] == s[1..][i - 1]; }
      }
    }
  }

  /** The first agent of the list with the given id (the chat composer's
      `getAgentById`, and the final `find` of `findAgentById`). */
  function GetAgentById<Id(==)>(agents: seq<Agent<Id>>, id: Id): (r: Option<Agent<Id>>)
  {
    FindFirst(agents, (a: Agent<Id>) => a.id == id)
  }

  /** An agent is found by id exactly when one carries that id, and the one
      found is the first of them. */
  lemma {:induction false} GetAgentByIdSpec<Id>(agents: seq<Agent<Id>>, id: Id)
    ensures var r := GetAgentById(agents, id);
            && (r.None? <==> forall i :: 0 <= i < |agents| ==> agents[i].id != id)
            && (r.Some? ==> exists i :: 0 <= i < |agents| && agents[i] == r.value && r.value.id == id
                                      && forall j :: 0 <= j < i ==> agents[j].id != id)
  {
    var p := (a: Agent<Id>) => a.id == id;
    var r := GetAgentById(agents, id);
    if r.Some? {
      var i :| IsFirstMatch(agents, p, i) && agents[i] == r.value;
      assert forall j :: 0 <= j < i ==> !p(agents[j]);
    }
  }

  /** The argument of `findAgentById`: `number | string | null | undefined`. */
  datatype IdArg = Null | Undefined | Num(n: Number) | Str(s: string)

  /** The numeric id `findAgentById` searches for, or `None` when it gives up:
      for a missing id, or one whose numeric conversion is not finite. */
  function NumericId(arg: IdArg): (r: Option<int>)
    ensures arg.Null? || arg.Undefined? ==> r.None?
    ensures arg.Num? ==> (r.Some? <==> arg.n.Finite?)
    ensures arg.Num? && arg.n.Finite? ==> r == Some(arg.n.value)
    ensures arg.Str? ==> (r.Some? <==> ParseNumber(arg.s).Finite?)
    ensures arg.Str? && r.Some? ==> r.value == ParseNumber(arg.s).value
  {
    var n := match arg
      case Null => NonFinite
      case Undefined => NonFinite
      case Num(n) => n
      case Str(s) => ParseNumber(s);
    if arg.Null? || arg.Undefined? || n.NonFinite? then None else Some(n.value)
  }

  /** `findAgentById(agents, id)` */
  function FindAgentById(agents: seq<Agent<int>>, arg: IdArg): (r: Option<Agent<int>>)
    ensures arg.Null? || arg.Undefined? ==> r.None?
    ensures r.Some? ==> NumericId(arg) == Some(r.value.id) && r.value in agents
    ensures r.Some? ==> exists i :: 0 <= i < |agents| && agents[i] == r.value
                                    && forall j :: 0 <= j < i ==> agents[j].id != r.value.id
    ensures NumericId(arg).Some? && r.None? ==> forall i :: 0 <= i < |agents| ==> agents[i].id != NumericId(arg).value
  {
    match NumericId(arg)
    case None => None
    case Some(v) => GetAgentByIdSpec(agents, v); GetAgentById(agents, v)
  }

  /** A string id that is the decimal rendering of a number finds the same
      agent as the number itself, so ids that travel through a URL or a
      `String(id)` still resolve. */
  lemma {:induction false} FindByDecimalString(agents: seq<Agent<int>>, n: int)
    ensures FindAgentById(agents, Str(Decimal(n))) == FindAgentById(agents, Num(Finite(n)))
  {
    ParseDecimal(n);
  }

  /** `Number("")` is zero, so a blank string id looks up the agent with id 0. */
  lemma {:induction false} FindByBlankString(agents: seq<Agent<int>>, s: string)
    requires forall i :: 0 <= i < |s| ==> IsSpace(s[i])
    ensures FindAgentById(agents, Str(s)) == GetAgentById(agents, 0)
  {
  }

  /** The handle `findAgentByHandle` looks for: `@` is prefixed when missing. */
  function NormalizeHandle(handle: string): (r: string)
    ensures StartsWith(r, "@")
    ensures StartsWith(handle, "@") ==> r == handle
    ensures !StartsWith(handle, "@") ==> r[1..] == handle
  {
    if StartsWith(handle, "@") then handle else "@" + handle
  }

  /** Normalising twice is normalising once, and `x` and `@x` normalise alike
      when `x` does not already start with `@`. */
  lemma {:induction false} NormalizeHandleIdempotent(handle: string)
    ensures NormalizeHandle(NormalizeHandle(handle)) == NormalizeHandle(handle)
    ensures !StartsWith(handle, "@") ==> NormalizeHandle("@" + handle) == NormalizeHandle(handle)
  {
    if !StartsWith(handle, "@") {
      assert ("@" + handle)[..1] == "@";
    }
  }

  /** `findAgentByHandle(agents, handle)` */
  function FindAgentByHandle<Id>(agents: seq<Agent<Id>>, handle: string): (r: Option<Agent<Id>>)
    ensures r.Some? ==> r.value in agents && r.value.handle == NormalizeHandle(handle) && StartsWith(r.value.handle, "@")
    ensures r.None? <==> forall i :: 0 <= i < |agents| ==> agents[i].handle != NormalizeHandle(handle)
  {
    var normalized := NormalizeHandle(handle);
    FindFirst(agents, (a: Agent<Id>) => a.handle == normalized)
  }

  /** The found agent is the first in list order with the normalised handle. */
  lemma {:induction false} FindAgentByHandleIsFirst<Id>(agents: seq<Agent<Id>>, handle: string, i: nat)
    requires i < |agents| && agents[i].handle == NormalizeHandle(handle)
    ensures FindAgentByHandle(agents, handle).Some?
    ensures exists k :: 0 <= k <= i && FindAgentByHandle(agents, handle) == Some(agents[k])
  {
    var normalized := NormalizeHandle(handle);
    var p := (a: Agent<Id>) => a.handle == normalized;
    var r := FindAgentByHandle(agents, handle);
    var k :| IsFirstMatch(agents, p, k) && agents[k] == r.value;
    assert k <= i;
  }

  /** Looking up `x` or `@x` finds the same agent. */
  lemma {:induction false} FindAgentByHandleAtInsensitive<Id>(agents: seq<Agent<Id>>, handle: string)
    requires !StartsWith(handle, "@")
    ensures FindAgentByHandle(agents, "@" + handle) == FindAgentByHandle(agents, handle)
  {
    NormalizeHandleIdempotent(handle);
  }
}
