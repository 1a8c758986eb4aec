/** The places of a JSON document: paths of object keys and list positions. */
module JsonPaths {
  import opened Text
  import opened Json

  datatype Step = Key(name: string) | Index(position: nat)

  type Path = seq<Step>

  /** The value at a path, if there is one. */
  function At(v: Value, path: Path): Option<Value> {
    if path == [] then Some(v)
    else
      match path[0]
      case Key(k) => if v.Obj? && k in v.members then At(v.members[k], path[1..]) else None
      case Index(i) => if v.Arr? && i < |v.items| then At(v.items[i], path[1..]) else None
  }

  /** The innermost object key on a path, or the given one if the path has none. */
  function Innermost(path: Path, key: string): string {
    if path == [] then key
    else Innermost(path[1..], if path[0].Key? then path[0].name else key)
  }

  lemma AtKey(v: Value, k: string, rest: Path)
    ensures At(v, [Key(k)] + rest) == if v.Obj? && k in v.members then At(v.members[k], rest) else None
  {
    assert ([Key(k)] + rest)[1..] == rest;
  }

  lemma AtIndex(v: Value, i: nat, rest: Path)
    ensures At(v, [Index(i)] + rest) == if v.Arr? && i < |v.items| then At(v.items[i], rest) else None
  {
    assert ([Index(i)] + rest)[1..] == rest;
  }
}
