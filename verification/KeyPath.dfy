/** Lookup and update by a dotted key path in nested dictionaries and lists, and deep merging of dictionaries. */
module KeyPath {
  import opened Wrappers

  datatype Json = Null | Scalar(text: string) | Obj(fields: map<string, Json>) | Arr(items: seq<Json>)

  /** What `int(...)` makes of a key, if it makes anything of it. */
  type Parse = string -> Option<int>

  // ---------------------------------------------------------------- lookup

  /** Python's index: negative ones count from the end. */
  function Position(i: int, size: nat): (p: Option<nat>)
    ensures p.Some? ==> p.value < size
  {
    if 0 <= i < size then Some(i) else if i < 0 <= i + size then Some(i + size) else None
  }

  /** `obj[key]`, or nothing where that raises. */
  function Child(obj: Json, key: string, parse: Parse): Option<Json> {
    match obj
    case Obj(fields) => if key in fields then Some(fields[key]) else None
    case Arr(items) =>
      if parse(key).None? then None
      else
        var p := Position(parse(key).value, |items|);
        if p.Some? then Some(items[p.value]) else None
    case _ => None
  }

  /** `get_by_key_path`; nothing stands for the default. */
  function Get(obj: Json, path: seq<string>, parse: Parse): Option<Json> {
    if path == [] then None
    else
      var child := Child(obj, path[0], parse);
      if |path| == 1 || child.None? then child else Get(child.value, path[1..], parse)
  }

  // ---------------------------------------------------------------- update

  /** The value under a key on the way of an update; a missing or null one gives way to an empty dictionary. */
  function Parent(fields: map<string, Json>, key: string): Json {
    if key !in fields || fields[key] == Null then Obj(map[]) else fields[key]
  }

  /**
   * `update_by_key_path`: what the structure looks like afterwards, and whether the call returned.
   * A missing or null parent becomes a dictionary before the call knows whether the rest of the path works.
   */
  function Update(obj: Json, path: seq<string>, value: Json, parse: Parse): (Json, bool)
    requires path != []
    decreases |path|
  {
    var key := path[0];
    match obj
    case Obj(fields) =>
      if |path| == 1 then (Obj(fields[key := value]), true)
      else
        var (child, ok) := Update(Parent(fields, key), path[1..], value, parse);
        (Obj(fields[key := child]), ok)
    case Arr(items) =>
      if parse(key).None? then (obj, false)
      else
        var i := parse(key).value;
        var p := Position(i, |items|);
        if p.None? then
          if |path| == 1 && i == |items| then (Arr(items + [value]), true) else (obj, false)
        else if |path| == 1 then (Arr(items[p.value := value]), true)
        else
          var (child, ok) := Update(items[p.value], path[1..], value, parse);
          (Arr(items[p.value := child]), ok)
    case _ => (obj, false)
  }

  /** Below a dictionary that was just created nothing can fail. */
  lemma {:induction false} FreshNeverFails(path: seq<string>, value: Json, parse: Parse)
    requires path != []
    ensures Update(Obj(map[]), path, value, parse).1
    decreases |path|
  {
    if |path| > 1 {
      FreshNeverFails(path[1..], value, parse);
    }
  }

  /** What the first k keys of a path lead to. */
  function Reached(obj: Json, path: seq<string>, k: nat, parse: Parse): Option<Json>
    requires k <= |path|
  {
    if k == 0 then Some(obj) else Get(obj, path[..k], parse)
  }

  /**
   * An update cannot go on with the k-th key: the path has led to a scalar, to a null that no dictionary holds, or to a
   * list, and the key is no number, or an index out of range. The last key may be the index of an item to append.
   */
  predicate Blocked(obj: Json, path: seq<string>, k: nat, parse: Parse)
    requires k < |path|
  {
    var at := Reached(obj, path, k, parse);
    at.Some? &&
    match at.value
    case Scalar(_) => true
    case Null => k == 0 || (Reached(obj, path, k - 1, parse).Some? && Reached(obj, path, k - 1, parse).value.Arr?)
    case Obj(_) => false
    case Arr(items) =>
      || parse(path[k]).None? || parse(path[k]).value < -|items| || parse(path[k]).value > |items|
      || (parse(path[k]).value == |items| && k < |path| - 1)
  }

  lemma {:induction false} ReachedNext(obj: Json, path: seq<string>, k: nat, parse: Parse)
    requires 0 < k <= |path|
    ensures var child := Child(obj, path[0], parse);
            Reached(obj, path, k, parse) == if child.Some? then Reached(child.value, path[1..], k - 1, parse) else None
  {
    assert path[..k][1..] == path[1..][..k - 1];
  }

  /** A key past the first blocks an update just as it blocks one of the child it goes through. */
  lemma {:induction false} BlockedNext(obj: Json, path: seq<string>, k: nat, parse: Parse)
    requires 0 < k < |path|
    ensures var child := Child(obj, path[0], parse);
            Blocked(obj, path, k, parse) <==>
              child.Some? && (if k == 1 && child.value.Null? then obj.Arr? else Blocked(child.value, path[1..], k - 1, parse))
  {
    ReachedNext(obj, path, k, parse);
    if k > 1 {
      ReachedNext(obj, path, k - 1, parse);
    }
  }

  /** An update works exactly when no key of its path blocks it. */
  lemma {:induction false} UpdateWorksIff(obj: Json, path: seq<string>, value: Json, parse: Parse)
    requires path != []
    ensures Update(obj, path, value, parse).1 <==> forall k :: 0 <= k < |path| ==> !Blocked(obj, path, k, parse)
    decreases |path|
  {
    var rest, child := path[1..], Child(obj, path[0], parse);
    forall k | 1 <= k < |path|
      ensures Blocked(obj, path, k, parse) <==>
                child.Some? && (if k == 1 && child.value.Null? then obj.Arr? else Blocked(child.value, rest, k - 1, parse))
    {
      BlockedNext(obj, path, k, parse);
    }
    if |path| > 1 && obj.Obj? && (child.None? || child.value.Null?) {
      FreshNeverFails(rest, value, parse);
      NothingBelow(path, child, rest, parse);
    } else if |path| > 1 && child.Some? {
      UpdateWorksIff(child.value, rest, value, parse);
      assert forall k :: 0 <= k < |rest| ==> (Blocked(child.value, rest, k, parse) <==> Blocked(obj, path, k + 1, parse));
    } else {
      assert Update(obj, path, value, parse).1 <==> !Blocked(obj, path, 0, parse);
    }
  }

  /** Nothing is reached below a null. */
  lemma {:induction false} NothingBelow(path: seq<string>, child: Option<Json>, rest: seq<string>, parse: Parse)
    requires |path| > 1 && rest == path[1..] && (child.None? || child.value.Null?)
    ensures forall k :: 1 <= k < |rest| && child.Some? ==> !Blocked(child.value, rest, k, parse)
  {
    if child.Some? {
      forall k | 1 <= k < |rest| ensures !Blocked(child.value, rest, k, parse) {
        ReachedNext(child.value, rest, k, parse);
      }
    }
  }

  /** An update that raises has changed nothing. */
  lemma {:induction false} FailureKeepsAll(obj: Json, path: seq<string>, value: Json, parse: Parse)
    requires path != [] && !Update(obj, path, value, parse).1
    ensures Update(obj, path, value, parse).0 == obj
    decreases |path|
  {
    var key := path[0];
    if obj.Obj? {
      if key !in obj.fields || obj.fields[key] == Null {
        FreshNeverFails(path[1..], value, parse);
      } else {
        FailureKeepsAll(obj.fields[key], path[1..], value, parse);
      }
    } else if obj.Arr? && parse(key).Some? && Position(parse(key).value, |obj.items|).Some? {
      FailureKeepsAll(obj.items[Position(parse(key).value, |obj.items|).value], path[1..], value, parse);
    }
  }

  /** What an update wrote is what a lookup by the same path finds. */
  lemma {:induction false} GetAfterUpdate(obj: Json, path: seq<string>, value: Json, parse: Parse)
    requires path != [] && Update(obj, path, value, parse).1
    ensures Get(Update(obj, path, value, parse).0, path, parse) == Some(value)
    decreases |path|
  {
    var key := path[0];
    if |path| > 1 {
      if obj.Obj? {
        GetAfterUpdate(Parent(obj.fields, key), path[1..], value, parse);
      } else {
        GetAfterUpdate(obj.items[Position(parse(key).value, |obj.items|).value], path[1..], value, parse);
      }
    }
  }

  // ---------------------------------------------------------------- other lookups

  /** What a lookup finds from a position of a list on. */
  function GetBelow(items: seq<Json>, position: Option<nat>, rest: seq<string>, parse: Parse): Option<Json>
    requires position.Some? ==> position.value < |items|
  {
    if position.None? then None
    else if rest == [] then Some(items[position.value])
    else Get(items[position.value], rest, parse)
  }

  /**
   * The paths part along the structure, so that an update by `p` is none of `q`'s business. In a dictionary they
   * part at different keys, in a list at different positions. An append besides moves what negative indices
   * stand for; then the item that comes in has to give the same lookup.
   */
  predicate Part(obj: Json, p: seq<string>, q: seq<string>, parse: Parse)
    requires p != [] && q != []
    decreases |p|
  {
    match obj
    case Obj(fields) =>
      p[0] != q[0] || (|p| > 1 && |q| > 1 && Part(Parent(fields, p[0]), p[1..], q[1..], parse))
    case Arr(items) =>
      if parse(p[0]).None? || parse(q[0]).None? then true
      else
        var a, b := Position(parse(p[0]).value, |items|), Position(parse(q[0]).value, |items|);
        if a.Some? then
          a != b || (|p| > 1 && |q| > 1 && Part(items[a.value], p[1..], q[1..], parse))
        else if |p| == 1 && parse(p[0]).value == |items| then
          var b1 := Position(parse(q[0]).value, |items| + 1);
          b1 != Some(|items|) && GetBelow(items, b1, q[1..], parse) == GetBelow(items, b, q[1..], parse)
        else true
    case _ => true
  }

  lemma {:induction false} GetInList(items: seq<Json>, q: seq<string>, parse: Parse)
    requires q != [] && parse(q[0]).Some?
    ensures Get(Arr(items), q, parse) == GetBelow(items, Position(parse(q[0]).value, |items|), q[1..], parse)
  {
  }

  /** Every lookup that parts from the updated path finds what it found before. */
  lemma {:induction false} OthersUnchanged(obj: Json, p: seq<string>, q: seq<string>, value: Json, parse: Parse)
    requires p != [] && q != [] && Part(obj, p, q, parse)
    ensures Get(Update(obj, p, value, parse).0, q, parse) == Get(obj, q, parse)
    decreases |p|, 1
  {
    if obj.Arr? {
      OthersInListUnchanged(obj.items, p, q, value, parse);
    } else if obj.Obj? && p[0] == q[0] {
      OthersUnchanged(Parent(obj.fields, p[0]), p[1..], q[1..], value, parse);
    }
  }

  lemma {:induction false} OthersInListUnchanged(
    items: seq<Json>, p: seq<string>, q: seq<string>, value: Json, parse: Parse)
    requires p != [] && q != [] && Part(Arr(items), p, q, parse)
    ensures Get(Update(Arr(items), p, value, parse).0, q, parse) == Get(Arr(items), q, parse)
    decreases |p|, 0
  {
    if parse(p[0]).Some? && parse(q[0]).Some? {
      var a := Position(parse(p[0]).value, |items|);
      GetInList(items, q, parse);
      GetInList(Update(Arr(items), p, value, parse).0.items, q, parse);
      if a.Some? && a == Position(parse(q[0]).value, |items|) {
        OthersUnchanged(items[a.value], p[1..], q[1..], value, parse);
      }
    }
  }

  /** A value in which a lookup by the path finds something. */
  function Nest(path: seq<string>): Json {
    if path == [] then Scalar("") else Obj(map[path[0] := Nest(path[1..])])
  }

  lemma {:induction false} NestIsFound(path: seq<string>, parse: Parse)
    requires path != []
    ensures Get(Nest(path), path, parse) == Some(Scalar("")) && Get(Null, path, parse) == None
  {
    if |path| > 1 {
      NestIsFound(path[1..], parse);
    }
  }

  /** What of `q` goes beyond `p`. */
  function Beyond(p: seq<string>, q: seq<string>): seq<string> {
    if |q| > |p| then q[|p|..] else []
  }

  /** Whether an update works does not depend on the value. */
  lemma {:induction false} SuccessIsPaths(obj: Json, p: seq<string>, v: Json, w: Json, parse: Parse)
    requires p != []
    ensures Update(obj, p, v, parse).1 == Update(obj, p, w, parse).1
    decreases |p|
  {
    if |p| > 1 && obj.Obj? {
      SuccessIsPaths(Parent(obj.fields, p[0]), p[1..], v, w, parse);
    } else if |p| > 1 && obj.Arr? && parse(p[0]).Some? && Position(parse(p[0]).value, |obj.items|).Some? {
      SuccessIsPaths(obj.items[Position(parse(p[0]).value, |obj.items|).value], p[1..], v, w, parse);
    }
  }

  /** The lookup by `q` changes with one of two values written by `p`. */
  ghost predicate Affected(obj: Json, p: seq<string>, q: seq<string>, parse: Parse)
    requires p != []
  {
    || Get(Update(obj, p, Null, parse).0, q, parse) != Get(obj, q, parse)
    || Get(Update(obj, p, Nest(Beyond(p, q)), parse).0, q, parse) != Get(obj, q, parse)
  }

  /** Where the paths lead to the same value, what is written below it shows. */
  lemma {:induction false} SameValueAffected(
    obj: Json, child: Json, p: seq<string>, q: seq<string>, parse: Parse)
    requires p != [] && q != [] && (|p| == 1 || |q| == 1)
    requires |p| > 1 ==> Update(child, p[1..], Null, parse).1
    requires forall v :: Get(Update(obj, p, v, parse).0, q, parse) ==
               var after := if |p| == 1 then v else Update(child, p[1..], v, parse).0;
               if |q| == 1 then Some(after) else Get(after, q[1..], parse)
    ensures Affected(obj, p, q, parse)
  {
    var v, w := Null, Nest(Beyond(p, q));
    var afterV := Get(Update(obj, p, v, parse).0, q, parse);
    var afterW := Get(Update(obj, p, w, parse).0, q, parse);
    if |p| > 1 {
      SuccessIsPaths(child, p[1..], v, w, parse);
      GetAfterUpdate(child, p[1..], v, parse);
      GetAfterUpdate(child, p[1..], w, parse);
    } else if |q| > 1 {
      assert Beyond(p, q) == q[1..];
      NestIsFound(q[1..], parse);
    }
    assert afterV != afterW;
  }

  /** An update that works and does not part from a lookup affects it. */
  lemma {:induction false} NotPartedAffected(obj: Json, p: seq<string>, q: seq<string>, parse: Parse)
    requires p != [] && q != [] && Update(obj, p, Null, parse).1 && !Part(obj, p, q, parse)
    ensures Affected(obj, p, q, parse)
    decreases |p|, 1
  {
    if obj.Arr? {
      NotPartedInList(obj.items, p, q, parse);
    } else if |p| > 1 && |q| > 1 {
      NotPartedAffected(Parent(obj.fields, p[0]), p[1..], q[1..], parse);
      assert Beyond(p, q) == Beyond(p[1..], q[1..]);
    } else {
      SameValueAffected(obj, Parent(obj.fields, p[0]), p, q, parse);
    }
  }

  lemma {:induction false} NotPartedInList(items: seq<Json>, p: seq<string>, q: seq<string>, parse: Parse)
    requires p != [] && q != [] && Update(Arr(items), p, Null, parse).1 && !Part(Arr(items), p, q, parse)
    ensures Affected(Arr(items), p, q, parse)
    decreases |p|, 0
  {
    var a := Position(parse(p[0]).value, |items|);
    if a.None? {
      AppendAffected(items, p, q, parse);
    } else if |p| > 1 && |q| > 1 {
      NotPartedAffected(items[a.value], p[1..], q[1..], parse);
      assert Beyond(p, q) == Beyond(p[1..], q[1..]);
    } else {
      SameValueAffected(Arr(items), items[a.value], p, q, parse);
    }
  }

  lemma {:induction false} AppendAffected(items: seq<Json>, p: seq<string>, q: seq<string>, parse: Parse)
    requires |p| == 1 && q != [] && parse(p[0]) == Some(|items|) && parse(q[0]).Some?
    requires !Part(Arr(items), p, q, parse)
    ensures Affected(Arr(items), p, q, parse)
  {
    var b1 := Position(parse(q[0]).value, |items| + 1);
    GetInList(items, q, parse);
    forall v ensures Get(Update(Arr(items), p, v, parse).0, q, parse) == GetBelow(items + [v], b1, q[1..], parse) {
      GetInList(items + [v], q, parse);
    }
    if b1 == Some(|items|) {
      SameValueAffected(Arr(items), Null, p, q, parse);
    } else {
      var v: Json := Null;
      assert GetBelow(items + [v], b1, q[1..], parse) == GetBelow(items, b1, q[1..], parse);
    }
  }

  /** The lookup by `q` finds the same before and after the update. */
  ghost predicate Stays(obj: Json, p: seq<string>, q: seq<string>, value: Json, parse: Parse)
    requires p != []
  {
    Get(Update(obj, p, value, parse).0, q, parse) == Get(obj, q, parse)
  }

  /** An update that works leaves a lookup alone, whatever value it writes, exactly when the paths part. */
  lemma {:induction false} UnaffectedIff(obj: Json, p: seq<string>, q: seq<string>, parse: Parse)
    requires p != [] && q != [] && Update(obj, p, Null, parse).1
    ensures (forall value :: Stays(obj, p, q, value, parse)) <==> Part(obj, p, q, parse)
  {
    if Part(obj, p, q, parse) {
      forall value ensures Stays(obj, p, q, value, parse) {
        OthersUnchanged(obj, p, q, value, parse);
      }
    } else {
      NotPartedAffected(obj, p, q, parse);
      assert !Stays(obj, p, q, Null, parse) || !Stays(obj, p, q, Nest(Beyond(p, q)), parse);
    }
  }

  /** With a negative index paths that differ need not part: an append moves what `-1` stands for. */
  lemma {:induction false} NegativeIndexMoves(parse: Parse, value: Json)
    requires parse("1") == Some(1) && parse("-1") == Some(-1) && value != Null
    ensures var list := Arr([Null]);
            && !Part(list, ["1"], ["-1"], parse)
            && Update(list, ["1"], value, parse) == (Arr([Null, value]), true)
            && Get(list, ["-1"], parse) == Some(Null)
            && Get(Arr([Null, value]), ["-1"], parse) == Some(value)
  {
    assert [Null] + [value] == [Null, value];
  }

  // ---------------------------------------------------------------- deep merge

  /** `deep_merge` as a whole. */
  function Merge(dest: Json, update: Json): (r: Json)
    requires dest.Obj? && update.Obj?
    ensures r.Obj? && r.fields.Keys == dest.fields.Keys + update.fields.Keys
    decreases update
  {
    Obj(map k | k in dest.fields.Keys + update.fields.Keys ::
      if k !in update.fields then dest.fields[k]
      else if k in dest.fields && dest.fields[k].Obj? && update.fields[k].Obj? then
        Merge(dest.fields[k], update.fields[k])
      else update.fields[k])
  }

  /** A dictionary merged into itself. */
  lemma {:induction false} MergeSelf(update: Json)
    requires update.Obj?
    ensures Merge(update, update) == update
    decreases update
  {
    forall k | k in update.fields ensures Merge(update, update).fields[k] == update.fields[k] {
      if update.fields[k].Obj? {
        MergeSelf(update.fields[k]);
      }
    }
    assert Merge(update, update).fields == update.fields;
  }

  /** Merging the same update twice is merging it once. */
  lemma {:induction false} MergeTwice(dest: Json, update: Json)
    requires dest.Obj? && update.Obj?
    ensures Merge(Merge(dest, update), update) == Merge(dest, update)
    decreases update
  {
    var once := Merge(dest, update);
    var twice := Merge(once, update);
    forall k | k in once.fields ensures twice.fields[k] == once.fields[k] {
      if k in update.fields && update.fields[k].Obj? {
        if k in dest.fields && dest.fields[k].Obj? {
          MergeTwice(dest.fields[k], update.fields[k]);
        } else {
          MergeSelf(update.fields[k]);
        }
      }
    }
    assert twice.fields == once.fields;
  }

  /** What the update says, other than by a dictionary, is what the merged structure says. */
  lemma {:induction false} UpdateWins(dest: Json, update: Json, path: seq<string>, parse: Parse)
    requires dest.Obj? && update.Obj? && Get(update, path, parse).Some? && !Get(update, path, parse).value.Obj?
    ensures Get(Merge(dest, update), path, parse) == Get(update, path, parse)
    decreases |path|
  {
    var key := path[0];
    if key in dest.fields && dest.fields[key].Obj? && update.fields[key].Obj? {
      UpdateWins(dest.fields[key], update.fields[key], path[1..], parse);
    }
  }

  /** Where the update has a dictionary, an empty one included, the merged structure has one. */
  lemma {:induction false} DictionariesStay(dest: Json, update: Json, path: seq<string>, parse: Parse)
    requires dest.Obj? && update.Obj? && Get(update, path, parse).Some? && Get(update, path, parse).value.Obj?
    ensures Get(Merge(dest, update), path, parse).Some? && Get(Merge(dest, update), path, parse).value.Obj?
    decreases |path|
  {
    var key := path[0];
    if |path| > 1 && key in dest.fields && dest.fields[key].Obj? && update.fields[key].Obj? {
      DictionariesStay(dest.fields[key], update.fields[key], path[1..], parse);
    }
  }

  /** The update has no say about the path: on the way it lacks a key of a dictionary that both share. */
  predicate NotMentioned(dest: Json, update: Json, path: seq<string>)
    decreases |path|
  {
    && dest.Obj? && update.Obj? && path != []
    && (path[0] in update.fields ==>
          |path| > 1 && path[0] in dest.fields && NotMentioned(dest.fields[path[0]], update.fields[path[0]], path[1..]))
  }

  lemma {:induction false} OthersStay(dest: Json, update: Json, path: seq<string>, parse: Parse)
    requires NotMentioned(dest, update, path)
    ensures Get(Merge(dest, update), path, parse) == Get(dest, path, parse)
    decreases |path|
  {
    var key := path[0];
    if key in update.fields {
      OthersStay(dest.fields[key], update.fields[key], path[1..], parse);
    }
  }

  /** The loop of `deep_merge`: the keys of the update one after the other, in any order. */
  method DeepMerge(dest: Json, update: Json) returns (merged: Json)
    requires dest.Obj? && update.Obj?
    ensures merged == Merge(dest, update)
    decreases update
  {
    merged := dest;
    var todo := update.fields.Keys;
    ghost var goal := Merge(dest, update);
    while todo != {}
      invariant todo <= update.fields.Keys
      invariant merged.Obj? && merged.fields.Keys == dest.fields.Keys + (update.fields.Keys - todo)
      invariant forall k :: k in merged.fields ==>
                  merged.fields[k] == if k in todo then dest.fields[k] else goal.fields[k]
      decreases todo
    {
      var key :| key in todo;
      var value := update.fields[key];
      if key in merged.fields && merged.fields[key].Obj? && value.Obj? {
        var child := DeepMerge(merged.fields[key], value);
        merged := Obj(merged.fields[key := child]);
      } else {
        merged := Obj(merged.fields[key := value]);
      }
      todo := todo - {key};
    }
    assert merged.fields == goal.fields;
  }
}
