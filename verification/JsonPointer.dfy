/** Local references as `resolve_ref` of scripts/check_contract.py follows them: a JSON Pointer
    (RFC 6901) in a URI fragment. */
module JsonPointer {
  import opened Text
  import opened Json

  /** `s.replace(old, new)`: every occurrence, from the left, without overlap. */
  function Replace(s: string, old_: string, new_: string): string
    requires old_ != ""
  {
    if |s| < |old_| then s
    else if StartsWith(s, old_) then new_ + Replace(s[|old_|..], old_, new_)
    else [s[0]] + Replace(s[1..], old_, new_)
  }

  function Unescape(token: string): string {
    Replace(Replace(token, "~1", "/"), "~0", "~")
  }

  /** The keys that a reference text names; nothing if it is not local. */
  function Keys(reference: string): Option<seq<string>> {
    if StartsWith(reference, "#/") then Some(UnescapeAll(Split(reference[2..], '/'))) else None
  }

  function UnescapeAll(tokens: seq<string>): (keys: seq<string>)
    ensures |keys| == |tokens| && forall i :: 0 <= i < |keys| ==> keys[i] == Unescape(tokens[i])
  {
    seq(|tokens|, i requires 0 <= i < |tokens| => Unescape(tokens[i]))
  }

  /** `target[key]`, where anything but an object with that key is an error. */
  function Member(target: Value, key: string): Option<Value> {
    if target.Obj? && key in target.members then Some(target.members[key]) else None
  }

  /** The value at a path of object keys. */
  function ValueAt(v: Value, path: seq<string>): Option<Value> {
    if path == [] then Some(v)
    else
      var next := Member(v, path[0]);
      if next.None? then None else ValueAt(next.value, path[1..])
  }

  /** What a reference stands for. */
  function Target(document: Value, reference: string): Option<Value> {
    var keys := Keys(reference);
    if keys.None? then None else ValueAt(document, keys.value)
  }

  method FollowReference(document: Value, reference: string) returns (r: Option<Value>)
    ensures r == Target(document, reference)
  {
    if !StartsWith(reference, "#/") {
      return None;
    }
    var tokens := Split(reference[2..], '/');
    ghost var keys := UnescapeAll(tokens);
    var target := document;
    hide *;
    for i := 0 to |tokens|
      invariant ValueAt(target, keys[i..]) == ValueAt(document, keys)
    {
      StepsOn(target, keys[i..]);
      var next := Member(target, Unescape(tokens[i]));
      assert keys[i..][1..] == keys[i + 1..];
      if next.None? {
        return None;
      }
      target := next.value;
    }
    Arrived(target);
    return Some(target);
  }

  lemma StepsOn(v: Value, path: seq<string>)
    requires path != []
    ensures ValueAt(v, path) == var next := Member(v, path[0]); if next.None? then None else ValueAt(next.value, path[1..])
  {
  }

  lemma Arrived(v: Value)
    ensures ValueAt(v, []) == Some(v)
  {
  }

  // ----- printing a pointer and reading it back -----

  /** Section 3 of RFC 6901. */
  function Escape(key: string): string {
    if key == "" then ""
    else (if key[0] == '~' then "~0" else if key[0] == '/' then "~1" else [key[0]]) + Escape(key[1..])
  }

  /** The key with only its tildes escaped. */
  function EscapeTildes(key: string): string {
    if key == "" then ""
    else (if key[0] == '~' then "~0" else [key[0]]) + EscapeTildes(key[1..])
  }

  function EscapeAll(keys: seq<string>): (tokens: seq<string>)
    ensures |keys| == |tokens| && forall i :: 0 <= i < |keys| ==> tokens[i] == Escape(keys[i])
  {
    seq(|keys|, i requires 0 <= i < |keys| => Escape(keys[i]))
  }

  function Pointer(path: seq<string>): string {
    "#/" + Join(EscapeAll(path), "/")
  }

  lemma ReplaceHit(s: string, old_: string, new_: string)
    requires old_ != ""
    ensures Replace(old_ + s, old_, new_) == new_ + Replace(s, old_, new_)
  {
    assert (old_ + s)[|old_|..] == s && (old_ + s)[..|old_|] == old_;
  }

  lemma ReplaceMiss(c: char, s: string, old_: string, new_: string)
    requires old_ != "" && (c != old_[0] || (|old_| > 1 && s != "" && s[0] != old_[1]))
    ensures Replace([c] + s, old_, new_) == [c] + Replace(s, old_, new_)
  {
    var t := [c] + s;
    assert t[1..] == s;
    if |t| >= |old_| {
      assert t[..|old_|][0] == c && (s != "" ==> t[1] == s[0]);
      assert |old_| > 1 ==> t[..|old_|][1] == s[0];
    }
  }

  lemma {:induction false} SlashesBack(key: string)
    ensures Replace(Escape(key), "~1", "/") == EscapeTildes(key)
  {
    if key != "" {
      SlashesBack(key[1..]);
      var rest := Escape(key[1..]);
      hide Replace;
      if key[0] == '/' {
        ReplaceHit(rest, "~1", "/");
      } else if key[0] == '~' {
        ReplaceMiss('~', "0" + rest, "~1", "/");
        ReplaceMiss('0', rest, "~1", "/");
        assert "~0" + rest == ['~'] + ("0" + rest);
        assert "~0" + EscapeTildes(key[1..]) == ['~'] + ("0" + EscapeTildes(key[1..]));
      } else {
        ReplaceMiss(key[0], rest, "~1", "/");
      }
    }
  }

  lemma {:induction false} TildesBack(key: string)
    ensures Replace(EscapeTildes(key), "~0", "~") == key
  {
    if key != "" {
      TildesBack(key[1..]);
      var rest := EscapeTildes(key[1..]);
      hide Replace;
      if key[0] == '~' {
        ReplaceHit(rest, "~0", "~");
      } else {
        ReplaceMiss(key[0], rest, "~0", "~");
      }
    }
  }

  lemma {:induction false} EscapedIsOneToken(key: string)
    ensures '/' !in Escape(key)
  {
    if key != "" {
      EscapedIsOneToken(key[1..]);
    }
  }

  /** Reading a printed pointer gives back the path, whatever its keys contain. */
  lemma PointerRoundTrip(path: seq<string>)
    requires path != []
    ensures Keys(Pointer(path)) == Some(path)
  {
    var tokens := EscapeAll(path);
    forall i | 0 <= i < |path|
      ensures '/' !in tokens[i] && Unescape(tokens[i]) == path[i]
    {
      EscapedIsOneToken(path[i]);
      SlashesBack(path[i]);
      TildesBack(path[i]);
    }
    SplitJoin(tokens, '/');
    assert Pointer(path)[2..] == Join(tokens, "/");
    assert UnescapeAll(tokens) == path;
  }

  /** The printed pointer of a path leads to the value at that path. */
  lemma PointerLeadsThere(document: Value, path: seq<string>)
    requires path != []
    ensures Target(document, Pointer(path)) == ValueAt(document, path)
  {
    PointerRoundTrip(path);
  }
}
