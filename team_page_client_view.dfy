/** The view controls of the team page
    (src/components/team-page-client-view.tsx): the simple/advanced toggle
    and the lab filter, both of which copy the current query, change the
    copy and navigate to the page with it. The query is a `URLSearchParams`
    list: name/value pairs in order, names possibly repeated. */
module TeamPageClientView {
  import opened JsCore

  type Param = (string, string)

  /** The pairs named `name`, in order. */
  function Named(params: seq<Param>, name: string): seq<Param>
  {
    Filter(params, HasName(name))
  }

  function HasName(name: string): Param -> bool
  {
    (p: Param) => p.0 == name
  }

  /** The position of the first pair named `name`, or the length when
      there is none. */
  function FirstNamed(params: seq<Param>, name: string): (i: nat)
    ensures i <= |params|
    ensures forall j :: 0 <= j < i ==> params[j].0 != name
    ensures i < |params| ==> params[i].0 == name
  {
    if params == [] || params[0].0 == name then 0
    else 1 + FirstNamed(params[1..], name)
  }

  /** `get`: the value of the first pair named `name`, if any. */
  function GetParam(params: seq<Param>, name: string): (r: Option<string>)
    ensures r.None? <==> forall p :: p in params ==> p.0 != name
    ensures r.Some? ==> (name, r.value) in params
    ensures r.Some? <==> FirstNamed(params, name) < |params|
    ensures r.Some? ==> r.value == params[FirstNamed(params, name)].1
  {
    if params == [] then None
    else if params[0].0 == name then Some(params[0].1)
    else GetParam(params[1..], name)
  }

  /** `delete`: every pair named `name` removed, the others kept in order. */
  function DeleteParam(params: seq<Param>, name: string): (r: seq<Param>)
    ensures forall p :: p in r <==> p in params && p.0 != name
  {
    Filter(params, Other(name))
  }

  function Other(name: string): Param -> bool
  {
    (p: Param) => p.0 != name
  }

  /** `set`: the first pair named `name` gets the value and later ones are
      removed; without such a pair, the pair is appended. */
  function SetParam(params: seq<Param>, name: string, value: string): (r: seq<Param>)
    ensures (name, value) in r
    ensures forall p :: p in r && p.0 == name ==> p.1 == value
    ensures forall p :: p in r && p.0 != name <==> p in params && p.0 != name
    ensures var i := FirstNamed(params, name);
      i < |r| && r[..i] == params[..i] && r[i] == (name, value)
      && forall j :: i < j < |r| ==> r[j].0 != name
  {
    if params == [] then [(name, value)]
    else if params[0].0 == name then [(name, value)] + DeleteParam(params[1..], name)
    else
      var rest := SetParam(params[1..], name, value);
      SetParamCons(params[0], params[1..], rest, name, value, FirstNamed(params[1..], name));
      assert params == [params[0]] + params[1..];
      [params[0]] + rest
  }

  /** A pair of another name in front keeps the replaced pair at its place
      and the later pairs of the name removed, one position on. */
  lemma {:induction false} SetParamCons(p0: Param, tail: seq<Param>, rest: seq<Param>, name: string, value: string, i: nat)
    requires p0.0 != name
    requires i <= |tail| && i < |rest| && rest[..i] == tail[..i] && rest[i] == (name, value)
    requires forall j :: i < j < |rest| ==> rest[j].0 != name
    ensures var r, ps := [p0] + rest, [p0] + tail;
      i + 1 < |r| && i + 1 <= |ps| && r[..i + 1] == ps[..i + 1] && r[i + 1] == (name, value)
      && forall j :: i + 1 < j < |r| ==> r[j].0 != name
  {
    var r, ps := [p0] + rest, [p0] + tail;
    assert r[..i + 1] == [p0] + rest[..i];
    assert ps[..i + 1] == [p0] + tail[..i];
    forall j | i + 1 < j < |r| ensures r[j].0 != name {
      assert r[j] == rest[j - 1];
    }
  }

  /** `set` leaves the pairs of every other name as they were, in order. */
  lemma {:induction false} SetKeepsOthers(params: seq<Param>, name: string, value: string, other: string)
    requires other != name
    ensures Named(SetParam(params, name, value), other) == Named(params, other)
  {
    if params != [] {
      var rest := params[1..];
      assert params == [params[0]] + rest;
      FilterAppend([params[0]], rest, HasName(other));
      if params[0].0 == name {
        FilterAppend([(name, value)], DeleteParam(rest, name), HasName(other));
        DeleteKeepsOthers(rest, name, other);
      } else {
        SetKeepsOthers(rest, name, value, other);
        FilterAppend([params[0]], SetParam(rest, name, value), HasName(other));
      }
    }
  }

  /** `delete` leaves the pairs of every other name as they were, in order. */
  lemma {:induction false} DeleteKeepsOthers(params: seq<Param>, name: string, other: string)
    requires other != name
    ensures Named(DeleteParam(params, name), other) == Named(params, other)
  {
    if params != [] {
      var rest := params[1..];
      assert params == [params[0]] + rest;
      DeleteKeepsOthers(rest, name, other);
      FilterAppend([params[0]], rest, Other(name));
      FilterAppend([params[0]], rest, HasName(other));
      FilterAppend(Filter([params[0]], Other(name)), DeleteParam(rest, name), HasName(other));
    }
  }

  /** After `set`, `get` reads the value set. */
  lemma {:induction false} GetAfterSet(params: seq<Param>, name: string, value: string)
    ensures GetParam(SetParam(params, name, value), name) == Some(value)
  {
    if params != [] && params[0].0 != name {
      GetAfterSet(params[1..], name, value);
    }
  }

  /** `toString`, without the percent-encoding of names and values:
      `name=value` pairs joined by `&`. */
  function Serialize(params: seq<Param>): string
  {
    if params == [] then ""
    else if |params| == 1 then params[0].0 + "=" + params[0].1
    else params[0].0 + "=" + params[0].1 + "&" + Serialize(params[1..])
  }

  /** A mutable `URLSearchParams` object. */
  class SearchParams {
    var entries: seq<Param>

    /** `new URLSearchParams(other.toString())`: a copy of the pairs. */
    constructor (entries: seq<Param>)
      ensures this.entries == entries
    {
      this.entries := entries;
    }

    function Get(name: string): (r: Option<string>)
      reads this
      ensures r == GetParam(entries, name)
    {
      GetParam(entries, name)
    }

    method Set(name: string, value: string)
      modifies this
      ensures entries == SetParam(old(entries), name, value)
    {
      entries := SetParam(entries, name, value);
    }

    method Delete(name: string)
      modifies this
      ensures entries == DeleteParam(old(entries), name)
    {
      entries := DeleteParam(entries, name);
    }
  }

  /** The query after the view toggle: `advanced` removed when the view is
      advanced, set to `true` otherwise. */
  function ToggledParams(params: seq<Param>, currentAdvanced: bool): seq<Param>
  {
    if currentAdvanced then DeleteParam(params, "advanced") else SetParam(params, "advanced", "true")
  }

  /** Toggling flips the `advanced` parameter and keeps every other one,
      `labId` included. */
  lemma {:induction false} ToggleSpec(params: seq<Param>, currentAdvanced: bool)
    ensures currentAdvanced ==> GetParam(ToggledParams(params, currentAdvanced), "advanced").None?
    ensures !currentAdvanced ==> GetParam(ToggledParams(params, currentAdvanced), "advanced") == Some("true")
    ensures forall other :: other != "advanced" ==>
      Named(ToggledParams(params, currentAdvanced), other) == Named(params, other)
  {
    if !currentAdvanced {
      GetAfterSet(params, "advanced", "true");
    }
    forall other | other != "advanced"
      ensures Named(ToggledParams(params, currentAdvanced), other) == Named(params, other)
    {
      if currentAdvanced {
        DeleteKeepsOthers(params, "advanced", other);
      } else {
        SetKeepsOthers(params, "advanced", "true", other);
      }
    }
  }

  /** `toggleAdvancedView`: the target of the navigation. */
  method ToggleAdvancedView(pathname: string, searchParams: seq<Param>, currentAdvanced: bool)
    returns (target: string)
    ensures target == pathname + "?" + Serialize(ToggledParams(searchParams, currentAdvanced))
  {
    var params := new SearchParams(searchParams);
    if currentAdvanced {
      params.Delete("advanced");
    } else {
      params.Set("advanced", "true");
    }
    target := pathname + "?" + Serialize(params.entries);
  }

  /** The query after choosing a lab (`labId` set, `advanced` removed) or
      clearing it (`labId` removed). */
  function FilteredParams(params: seq<Param>, labId: Option<string>): seq<Param>
  {
    if Truthy(labId) then DeleteParam(SetParam(params, "labId", labId.value), "advanced")
    else DeleteParam(params, "labId")
  }

  /** Choosing a lab selects it and the simple view; clearing the lab keeps
      the view as it was. Other parameters are kept either way. */
  lemma {:induction false} LabFilterSpec(params: seq<Param>, labId: Option<string>)
    ensures Truthy(labId) ==> GetParam(FilteredParams(params, labId), "labId") == labId
    ensures Truthy(labId) ==> GetParam(FilteredParams(params, labId), "advanced").None?
    ensures !Truthy(labId) ==> GetParam(FilteredParams(params, labId), "labId").None?
    ensures !Truthy(labId) ==> Named(FilteredParams(params, labId), "advanced") == Named(params, "advanced")
    ensures forall other :: other != "advanced" && other != "labId" ==>
      Named(FilteredParams(params, labId), other) == Named(params, other)
  {
    if Truthy(labId) {
      var withLab := SetParam(params, "labId", labId.value);
      GetAfterSet(params, "labId", labId.value);
      DeleteKeepsOthers(withLab, "advanced", "labId");
      assert GetParam(FilteredParams(params, labId), "labId") == labId by {
        NamedFirst(FilteredParams(params, labId), withLab, "labId");
      }
    } else {
      DeleteKeepsOthers(params, "labId", "advanced");
    }
    forall other | other != "advanced" && other != "labId"
      ensures Named(FilteredParams(params, labId), other) == Named(params, other)
    {
      if Truthy(labId) {
        DeleteKeepsOthers(SetParam(params, "labId", labId.value), "advanced", other);
        SetKeepsOthers(params, "labId", labId.value, other);
      } else {
        DeleteKeepsOthers(params, "labId", other);
      }
    }
  }

  /** `get` depends only on the pairs of its name. */
  lemma {:induction false} GetByNamed(params: seq<Param>, name: string)
    ensures GetParam(params, name) == GetParam(Named(params, name), name)
  {
    if params != [] {
      var rest := params[1..];
      assert params == [params[0]] + rest;
      FilterAppend([params[0]], rest, HasName(name));
      if params[0].0 == name {
        assert Filter([params[0]], HasName(name)) == [params[0]];
        assert Named(params, name) == [params[0]] + Named(rest, name);
      } else {
        assert Filter([params[0]], HasName(name)) == [];
        assert Named(params, name) == Named(rest, name);
        GetByNamed(rest, name);
      }
    }
  }

  lemma {:induction false} NamedFirst(a: seq<Param>, b: seq<Param>, name: string)
    requires Named(a, name) == Named(b, name)
    ensures GetParam(a, name) == GetParam(b, name)
  {
    GetByNamed(a, name);
    GetByNamed(b, name);
  }

  /** `handleLabFilter`: the target of the navigation. */
  method HandleLabFilter(pathname: string, searchParams: seq<Param>, labId: Option<string>)
    returns (target: string)
    ensures target == pathname + "?" + Serialize(FilteredParams(searchParams, labId))
  {
    var params := new SearchParams(searchParams);
    if Truthy(labId) {
      params.Set("labId", labId.value);
      params.Delete("advanced");
    } else {
      params.Delete("labId");
    }
    target := pathname + "?" + Serialize(params.entries);
  }

  /** The select's change handler: the empty option stands for "all labs". */
  function SelectedLab(value: string): (labId: Option<string>)
    ensures labId.None? <==> value == ""
    ensures labId.Some? ==> labId.value == value
  {
    if value == "" then None else Some(value)
  }

  /** Picking "all labs" clears the lab filter. */
  lemma {:induction false} AllLabsClears(params: seq<Param>)
    ensures FilteredParams(params, SelectedLab("")) == DeleteParam(params, "labId")
  {
  }

  /** The view toggle is offered only while no lab is selected. */
  function ToggleButtonShown(params: seq<Param>): (shown: bool)
    ensures shown <==> !Truthy(GetParam(params, "labId"))
  {
    !Truthy(GetParam(params, "labId"))
  }

  /** The toggle offers the view that is not current. */
  function ToggleButtonLabel(currentAdvanced: bool, simpleViewString: string, advancedViewString: string)
    : (text: string)
    ensures currentAdvanced ==> text == simpleViewString
    ensures !currentAdvanced ==> text == advancedViewString
  {
    if currentAdvanced then simpleViewString else advancedViewString
  }
}
