/** Inputs on which `normalize` of scripts/check_contract.py shows the order of an unordered list, or
    gives something else when it is applied again. */
module ContractCounterexamples {
  import opened Text
  import opened Json
  import opened Sorting
  import opened JsonPointer
  import opened ContractReferences
  import opened ContractNormalForm
  import opened ContractShuffle

  function RefTo(path: seq<string>): Value {
    Obj(map["$ref" := Str(Pointer(path))])
  }

  lemma RefToLeads(path: seq<string>, document: Value, fuel: nat)
    requires path != []
    ensures IsLoneRef(RefTo(path)) && RefTarget(RefTo(path), document) == ValueAt(document, path)
    ensures Resolve(RefTo(path), document, fuel) ==
            if fuel == 0 || ValueAt(document, path).None? then None
            else Resolve(ValueAt(document, path).value, document, fuel - 1)
  {
    PointerLeadsThere(document, path);
    hide Resolve, Pointer, Target, ValueAt;
    assert IsLoneRef(RefTo(path));
    ResolveReference(RefTo(path), document, fuel);
  }

  // ----- a reference that leads to an unordered list shows its order -----

  function Under(k: string, v: Value): Value {
    Obj(map[k := v])
  }

  function Requiring(x: string, y: string): Value {
    Under("a", Under("required", Arr([Str(x), Str(y)])))
  }

  lemma UnderPaired(k: string, xs: seq<Value>, ys: seq<Value>)
    requires IsUnordered(k) && PairedOff(xs, ys, false)
    ensures Shuffled(Under(k, Arr(xs)), Under(k, Arr(ys)))
  {
    hide PairedOff, IsUnordered;
    assert AlikeAt(k, Under(k, Arr(xs)), Under(k, Arr(ys)), false);
  }

  lemma UnderShuffled(k: string, v: Value, w: Value)
    requires !IsUnordered(k) && Shuffled(v, w)
    ensures Shuffled(Under(k, v), Under(k, w))
  {
    hide IsUnordered;
    assert AlikeAt(k, Under(k, v), Under(k, w), false);
  }

  lemma SwapPaired(x: Value, y: Value)
    requires x.Str? && y.Str?
    ensures PairedOff([x, y], [y, x], false)
  {
    assert [x, y][1..] == [y] && RemoveAt([y, x], 1) == [y];
    PairedInPlace([y], [y]);
    PairedMore([x, y], [y, x], 1, false);
  }

  lemma RequiringShuffled(x: string, y: string)
    ensures Shuffled(Requiring(x, y), Requiring(y, x))
  {
    hide Shuffled, PairedOff, Under;
    SwapPaired(Str(x), Str(y));
    UnderPaired("required", [Str(x), Str(y)], [Str(y), Str(x)]);
    UnderShuffled("a", Under("required", Arr([Str(x), Str(y)])), Under("required", Arr([Str(y), Str(x)])));
  }

  lemma ValueUnder(k: string, v: Value, path: seq<string>)
    requires path != [] && path[0] == k
    ensures ValueAt(Under(k, v), path) == ValueAt(v, path[1..])
  {
  }

  lemma RequiringResolves(x: string, y: string, fuel: nat)
    requires fuel > 0
    ensures Normal(RefTo(["a", "required"]), Requiring(x, y), fuel) == Some(Arr([Str(x), Str(y)]))
  {
    hide Resolve, ValueAt, Pointer, RefTo, Resolved, Under, Prune;
    var list := Arr([Str(x), Str(y)]);
    var path := ["a", "required"];
    assert path[1..] == ["required"] && path[1..][1..] == [];
    ValueUnder("a", Under("required", list), path);
    ValueUnder("required", list, path[1..]);
    Arrived(list);
    RefToLeads(path, Requiring(x, y), fuel);
    PlainList(x, y);
    ResolvedStays(list, Requiring(x, y), fuel - 1);
  }

  lemma PlainList(x: string, y: string)
    ensures Resolved(Arr([Str(x), Str(y)])) && Prune(Arr([Str(x), Str(y)])) == Arr([Str(x), Str(y)])
  {
    assert PruneAll([Str(x), Str(y)]) == [Str(x), Str(y)];
  }

  /** With two different items the reordering shows. */
  lemma ReferenceShowsOrder(x: string, y: string, fuel: nat)
    requires fuel > 0 && x != y
    ensures Shuffled(Requiring(x, y), Requiring(y, x))
    ensures Normal(RefTo(["a", "required"]), Requiring(x, y), fuel) != Normal(RefTo(["a", "required"]), Requiring(y, x), fuel)
  {
    RequiringShuffled(x, y);
    RequiringResolves(x, y, fuel);
    RequiringResolves(y, x, fuel);
    hide *;
    assert [Str(x), Str(y)][0] != [Str(y), Str(x)][0];
  }

  // ----- normalising twice -----

  function Documented(text: string): Value {
    Obj(map["$ref" := Str(Pointer(["x"])), "description" := Str(text)])
  }

  /** A reference beside documentation is kept, becomes a lone one, and is followed the second time. */
  lemma NormalTwiceDiffers(text: string, fuel: nat)
    requires fuel > 0
    ensures var document := Obj(map["x" := Null]);
            && Normal(Documented(text), document, fuel) == Some(RefTo(["x"]))
            && Normal(RefTo(["x"]), document, fuel) == Some(Null)
  {
    var document := Obj(map["x" := Null]);
    var v := Documented(text);
    RefToLeads(["x"], document, fuel);
    assert ValueAt(document, ["x"]) == Some(Null) by {
      assert ["x"][1..] == [];
    }
    hide Pointer, ValueAt, Resolve;
    assert "description" in v.members.Keys;
    assert Resolved(v.members["$ref"]) && Resolved(v.members["description"]);
    assert Resolved(v);
    ResolvedStays(v, document, fuel);
    ResolveScalar(Null, document, fuel - 1);
    assert PruneMembers(v) == RefTo(["x"]).members;
  }
}
