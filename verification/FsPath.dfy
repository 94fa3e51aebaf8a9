/** Paths: splitting at separators, and which names may be created. */
module FsPath {
  import opened FsCodec
  import opened FsTree

  const SLASH: Byte := 47
  const DOT: Byte := 46

  /** Parts between separators, empty ones dropped. */
  function Components(path: seq<Byte>): (r: seq<Name>)
    ensures forall c <- r :: c != [] && SLASH !in c
  {
    Split(path, [])
  }

  /** `part` is the component being read when `path` is what is left. */
  function Split(path: seq<Byte>, part: seq<Byte>): (r: seq<Name>)
    requires SLASH !in part
    ensures forall c <- r :: c != [] && SLASH !in c
    decreases path
  {
    var done: seq<Name> := if part == [] then [] else [part];
    if path == [] then done
    else if path[0] == SLASH then done + Split(path[1..], [])
    else Split(path[1..], part + [path[0]])
  }

  function TrimEnd(path: seq<Byte>): (r: seq<Byte>)
    ensures r == [] || r[|r| - 1] != SLASH
  {
    if path != [] && path[|path| - 1] == SLASH then TrimEnd(path[..|path| - 1]) else path
  }

  /** What follows the last separator. */
  function AfterLast(path: seq<Byte>): (r: seq<Byte>)
    ensures SLASH !in r
  {
    if path == [] || path[|path| - 1] == SLASH then [] else AfterLast(path[..|path| - 1]) + [path[|path| - 1]]
  }

  /** The final component, as `split_path` finds it. */
  function FinalName(path: seq<Byte>): Result<Name> {
    var trimmed := TrimEnd(path);
    if trimmed == [] then Err(BadName) else Ok(AfterLast(trimmed))
  }

  predicate GoodName(name: Name) {
    1 <= |name| <= MAX_NAME && SLASH !in name && name != [DOT] && name != [DOT, DOT]
  }

  function CheckName(name: Name): Option<FsError> {
    if GoodName(name) then None else Some(BadName)
  }

  lemma {:induction false} SplitSnoc(path: seq<Byte>, part: seq<Byte>, b: Byte)
    requires SLASH !in part
    ensures b == SLASH ==> Split(path + [b], part) == Split(path, part)
    ensures b != SLASH && InProgress(path, part) == [] ==> Split(path + [b], part) == Split(path, part) + [[b]]
    ensures b != SLASH && InProgress(path, part) != [] ==>
              Split(path, part) != [] &&
              Split(path + [b], part) == Split(path, part)[..|Split(path, part)| - 1] + [InProgress(path, part) + [b]]
    ensures InProgress(path, part) != [] ==>
              Split(path, part) != [] && Split(path, part)[|Split(path, part)| - 1] == InProgress(path, part)
    decreases path
  {
    if path == [] {
      assert path + [b] == [b] && [b][1..] == [];
    } else {
      assert (path + [b])[1..] == path[1..] + [b];
      if path[0] == SLASH {
        SplitSnoc(path[1..], [], b);
      } else {
        SplitSnoc(path[1..], part + [path[0]], b);
      }
    }
  }

  /** The component in progress once `path` has been read on top of `part`. */
  function InProgress(path: seq<Byte>, part: seq<Byte>): seq<Byte>
    decreases path
  {
    if path == [] then part
    else if path[0] == SLASH then InProgress(path[1..], []) else InProgress(path[1..], part + [path[0]])
  }

  lemma {:induction false} InProgressSnoc(path: seq<Byte>, part: seq<Byte>, b: Byte)
    ensures InProgress(path + [b], part) == if b == SLASH then [] else InProgress(path, part) + [b]
    decreases path
  {
    if path == [] {
      assert path + [b] == [b] && [b][1..] == [];
    } else {
      assert (path + [b])[1..] == path[1..] + [b];
      InProgressSnoc(path[1..], if path[0] == SLASH then [] else part + [path[0]], b);
    }
  }

  lemma {:induction false} AfterLastAgrees(path: seq<Byte>)
    ensures InProgress(path, []) == AfterLast(path)
    decreases |path|
  {
    if path != [] {
      var init, b := path[..|path| - 1], path[|path| - 1];
      assert path == init + [b];
      AfterLastAgrees(init);
      InProgressSnoc(init, [], b);
    }
  }

  /** The name `create` and `remove` check is the component the transaction targets: both ways of
      taking a path apart agree, on every path. */
  lemma {:induction false} FinalNameIsLastComponent(path: seq<Byte>)
    ensures FinalName(path).Err? <==> Components(path) == []
    ensures FinalName(path).Ok? ==>
              Components(path) != [] && FinalName(path).value == Components(path)[|Components(path)| - 1]
    decreases |path|
  {
    if path != [] {
      var init, b := path[..|path| - 1], path[|path| - 1];
      assert path == init + [b];
      SplitSnoc(init, [], b);
      if b == SLASH {
        FinalNameIsLastComponent(init);
      } else {
        AfterLastAgrees(init);
      }
    }
  }
}
