/** `update_by_key_path` on dictionaries and lists as objects that are changed in place. */
module InPlaceUpdate {
  import opened KeyPath

  datatype Value = NullValue | Text(text: string) | Ref(node: Container)

  /** A dictionary or a list, with the nodes it consists of and the structure they show. */
  class Container {
    const isList: bool
    var fields: map<string, Value>
    var items: seq<Value>
    ghost var repr: set<Container>
    ghost var view: Json

    /** A value in this node shows the given structure, with nodes of its own. */
    ghost predicate Shows(v: Value, j: Json)
      reads this, repr
      decreases repr, 0
    {
      match v
      case NullValue => j == Null
      case Text(t) => j == Scalar(t)
      case Ref(n) => n in repr && n.repr < repr && this !in n.repr && n.Valid() && n.view == j
    }

    static ghost predicate Separate(a: Value, b: Value)
      reads if a.Ref? then {a.node} else {}, if b.Ref? then {b.node} else {}
    {
      a.Ref? && b.Ref? ==> a.node.repr !! b.node.repr
    }

    ghost predicate Valid()
      reads this, repr
      decreases repr, 1
    {
      && this in repr
      && if isList then
           && view.Arr? && |view.items| == |items|
           && (forall i :: 0 <= i < |items| ==> Shows(items[i], view.items[i]))
           && (forall i, j :: 0 <= i < j < |items| ==> Separate(items[i], items[j]))
         else
           && view.Obj? && view.fields.Keys == fields.Keys
           && (forall k :: k in fields ==> Shows(fields[k], view.fields[k]))
           && (forall k, l :: k in fields && l in fields && k != l ==> Separate(fields[k], fields[l]))
    }

    constructor Dict()
      ensures Valid() && !isList && view == Obj(map[]) && repr == {this}
    {
      isList, fields, items := false, map[], [];
      view, repr := Obj(map[]), {this};
    }

    /** The nodes of a value. */
    static ghost function NodesOf(v: Value): set<Container>
      reads if v.Ref? then {v.node} else {}
    {
      if v.Ref? then v.node.repr else {}
    }

    /** A value from outside that shows the given structure: it shares no node with this one. */
    ghost predicate Brings(v: Value, j: Json)
      reads this, if v.Ref? then {v.node} + v.node.repr else {}
    {
      match v
      case NullValue => j == Null
      case Text(t) => j == Scalar(t)
      case Ref(n) => n.repr !! repr && n.Valid() && n.view == j
    }

    /** `obj[key] = value` on a dictionary. */
    method SetField(key: string, v: Value, ghost j: Json)
      requires Valid() && !isList && Brings(v, j)
      modifies this
      ensures Valid() && repr == old(repr) + NodesOf(v)
      ensures view == Obj(old(view).fields[key := j])
    {
      fields := fields[key := v];
      view := Obj(view.fields[key := j]);
      repr := repr + NodesOf(v);
      forall k | k in fields && k != key
        ensures Shows(fields[k], view.fields[k]) && Separate(fields[k], v)
      {
        assert old(Shows(fields[k], view.fields[k]));
      }
      assert Shows(v, j);
      forall k, l | k in fields && l in fields && k != l ensures Separate(fields[k], fields[l]) {
        assert k != key && l != key ==> old(Separate(fields[k], fields[l]));
      }
    }

    /** `obj[key] = {}` */
    method SetEmpty(key: string)
      requires Valid() && !isList
      modifies this
      ensures Valid() && key in fields && fields[key].Ref? && fresh(repr - old(repr))
      ensures view == Obj(old(view).fields[key := Obj(map[])])
    {
      var child := new Container.Dict();
      SetField(key, Ref(child), Obj(map[]));
    }

    /** A missing or null value on the way gives way to an empty dictionary; says whether the way goes on. */
    method EnsureParent(key: string) returns (open: bool)
      requires Valid() && !isList
      modifies this
      ensures Valid() && fresh(repr - old(repr)) && key in fields && open == fields[key].Ref?
      ensures view == Obj(old(view).fields[key := Parent(old(view).fields, key)])
      ensures !open ==> view == old(view) && view.fields[key].Scalar?
    {
      if key !in fields || fields[key].NullValue? {
        assert key in fields ==> Shows(fields[key], view.fields[key]);
        SetEmpty(key);
        return true;
      }
      assert Shows(fields[key], view.fields[key]);
      assert fields[key].Ref? ==> fields[key].node.Valid();
      assert view.fields[key := view.fields[key]] == view.fields;
      open := fields[key].Ref?;
    }

    /** `_update` on a dictionary with more of the path to go. */
    method UpdateField(path: seq<string>, v: Value, ghost j: Json, parse: Parse) returns (ok: bool)
      requires Valid() && !isList && |path| > 1 && Brings(v, j)
      modifies repr
      ensures Valid() && fresh(repr - old(repr) - NodesOf(v))
      ensures (view, ok) == Update(old(view), path, j, parse)
      decreases |path|, 0
    {
      var open := EnsureParent(path[0]);
      if !open {
        return false;
      }
      ghost var before := view.fields;
      ok := UpdateChildField(path[0], path[1..], v, j, parse);
      ThroughParent(old(view).fields, before, path, j, parse);
    }

    /** A value shows the given structure with nodes from the given set. */
    static ghost predicate ShowsIn(v: Value, j: Json, nodes: set<Container>)
      reads nodes
    {
      match v
      case NullValue => j == Null
      case Text(t) => j == Scalar(t)
      case Ref(n) => n in nodes && n.repr <= nodes && n.Valid() && n.view == j
    }

    static ghost predicate SeparateIn(a: Value, b: Value, nodes: set<Container>)
      reads nodes
    {
      a.Ref? && b.Ref? && a.node in nodes && b.node in nodes ==> a.node.repr !! b.node.repr
    }

    /** All values but the one under `key` show their structure with nodes from the given set, each with its own. */
    static ghost predicate OthersShow(fields: map<string, Value>, view: map<string, Json>, key: string, nodes: set<Container>)
      reads nodes
    {
      && fields.Keys == view.Keys
      && (forall k :: k in fields && k != key ==> ShowsIn(fields[k], view[k], nodes))
      && (forall k, l :: k in fields && l in fields && k != key && l != key && k != l ==>
            SeparateIn(fields[k], fields[l], nodes))
    }

    /** The recursive call into the value under a key. */
    method UpdateChildField(key: string, path: seq<string>, v: Value, ghost j: Json, parse: Parse) returns (ok: bool)
      requires Valid() && !isList && path != [] && key in fields && fields[key].Ref? && Brings(v, j)
      modifies repr
      ensures Valid() && fresh(repr - old(repr) - NodesOf(v))
      ensures var (child, done) := Update(old(view).fields[key], path, j, parse);
              view == Obj(old(view).fields[key := child]) && ok == done
      decreases |path|, 2
    {
      var child := fields[key].node;
      ghost var rest, before := repr - child.repr - {this}, view.fields;
      OthersAside(key);
      ok := child.UpdatePath(path, v, j, parse);
      assert OthersShow(fields, before, key, rest);
      assert child.repr !! rest && this !in child.repr;
      view := Obj(before[key := child.view]);
      repr := child.repr + rest + {this};
      Reassemble(key, rest, before);
    }

    /** The node is valid again when the value under `key` and the others show their structures with nodes apart. */
    lemma {:induction false} Reassemble(key: string, rest: set<Container>, before: map<string, Json>)
      requires !isList && key in fields && fields[key].Ref? && OthersShow(fields, before, key, rest)
      requires view == Obj(before[key := fields[key].node.view])
      requires var child := fields[key].node;
               && child.Valid()
               && child.repr !! rest && this !in child.repr && this !in rest && repr == child.repr + rest + {this}
      ensures Valid()
    {
      var child := fields[key].node;
      forall k | k in fields ensures Shows(fields[k], view.fields[k]) {
        assert k != key ==> ShowsIn(fields[k], view.fields[k], rest);
      }
      forall k, l | k in fields && l in fields && k != l ensures Separate(fields[k], fields[l]) {
        assert k != key ==> ShowsIn(fields[k], view.fields[k], rest);
        assert l != key ==> ShowsIn(fields[l], view.fields[l], rest);
        assert k != key && l != key ==> SeparateIn(fields[k], fields[l], rest);
      }
    }

    lemma {:induction false} OthersAside(key: string)
      requires Valid() && !isList && key in fields && fields[key].Ref?
      ensures OthersShow(fields, view.fields, key, repr - fields[key].node.repr - {this})
    {
      forall k | k in fields && k != key
        ensures ShowsIn(fields[k], view.fields[k], repr - fields[key].node.repr - {this})
      {
        assert Shows(fields[k], view.fields[k]) && Separate(fields[k], fields[key]);
        assert fields[k].Ref? ==> fields[k].node.Valid() && fields[k].node in fields[k].node.repr;
      }
    }

    /** `_update` */
    method UpdatePath(path: seq<string>, v: Value, ghost j: Json, parse: Parse) returns (ok: bool)
      requires Valid() && path != [] && Brings(v, j)
      modifies repr
      ensures Valid() && fresh(repr - old(repr) - NodesOf(v))
      ensures (view, ok) == Update(old(view), path, j, parse)
      decreases |path|, 1
    {
      if isList {
        ok := UpdateItem(path, v, j, parse);
      } else if |path| == 1 {
        SetField(path[0], v, j);
        ok := true;
      } else {
        ok := UpdateField(path, v, j, parse);
      }
    }

    /** `_update` on a list. */
    method UpdateItem(path: seq<string>, v: Value, ghost j: Json, parse: Parse) returns (ok: bool)
      requires Valid() && isList && path != [] && Brings(v, j)
      modifies repr
      ensures Valid() && fresh(repr - old(repr) - NodesOf(v))
      ensures (view, ok) == Update(old(view), path, j, parse)
      decreases |path|, 0
    {
      if parse(path[0]).None? {
        return false;
      }
      var i := parse(path[0]).value;
      var p := Position(i, |items|);
      if p.None? {
        if |path| > 1 || i != |items| {
          return false;
        }
        Append(v, j);
        return true;
      }
      if |path| == 1 {
        SetItem(p.value, v, j);
        return true;
      }
      if !items[p.value].Ref? {
        assert view.items[p.value := view.items[p.value]] == view.items;
        return false;
      }
      ok := UpdateChildItem(p.value, path[1..], v, j, parse);
    }

    static ghost predicate OtherItemsShow(items: seq<Value>, view: seq<Json>, i: nat, nodes: set<Container>)
      reads nodes
    {
      && |items| == |view|
      && (forall k :: 0 <= k < |items| && k != i ==> ShowsIn(items[k], view[k], nodes))
      && (forall k, l :: 0 <= k < l < |items| && k != i && l != i ==> SeparateIn(items[k], items[l], nodes))
    }

    /** The recursive call into an item. */
    method UpdateChildItem(i: nat, path: seq<string>, v: Value, ghost j: Json, parse: Parse) returns (ok: bool)
      requires Valid() && isList && path != [] && i < |items| && items[i].Ref? && Brings(v, j)
      modifies repr
      ensures Valid() && fresh(repr - old(repr) - NodesOf(v))
      ensures var (child, done) := Update(old(view).items[i], path, j, parse);
              view == Arr(old(view).items[i := child]) && ok == done
      decreases |path|, 2
    {
      var child := items[i].node;
      ghost var rest, before := repr - child.repr - {this}, view.items;
      OtherItemsAside(i);
      ok := child.UpdatePath(path, v, j, parse);
      view := Arr(before[i := child.view]);
      repr := child.repr + rest + {this};
      ReassembleItems(i, rest, before);
    }

    lemma {:induction false} ReassembleItems(i: nat, rest: set<Container>, before: seq<Json>)
      requires isList && i < |items| && items[i].Ref? && OtherItemsShow(items, before, i, rest)
      requires view == Arr(before[i := items[i].node.view])
      requires var child := items[i].node;
               && child.Valid()
               && child.repr !! rest && this !in child.repr && this !in rest && repr == child.repr + rest + {this}
      ensures Valid()
    {
      var child := items[i].node;
      forall k | 0 <= k < |items| ensures Shows(items[k], view.items[k]) {
        assert k != i ==> ShowsIn(items[k], view.items[k], rest);
      }
      forall k, l | 0 <= k < l < |items| ensures Separate(items[k], items[l]) {
        assert k != i ==> ShowsIn(items[k], view.items[k], rest);
        assert l != i ==> ShowsIn(items[l], view.items[l], rest);
        assert k != i && l != i ==> SeparateIn(items[k], items[l], rest);
      }
    }

    lemma {:induction false} OtherItemsAside(i: nat)
      requires Valid() && isList && i < |items| && items[i].Ref?
      ensures OtherItemsShow(items, view.items, i, repr - items[i].node.repr - {this})
    {
      forall k | 0 <= k < |items| && k != i
        ensures ShowsIn(items[k], view.items[k], repr - items[i].node.repr - {this})
      {
        assert Shows(items[k], view.items[k]);
        assert if k < i then Separate(items[k], items[i]) else Separate(items[i], items[k]);
        assert items[k].Ref? ==> items[k].node.Valid() && items[k].node in items[k].node.repr;
      }
    }

    /** `obj[i] = value` on a list. */
    method SetItem(i: nat, v: Value, ghost j: Json)
      requires Valid() && isList && i < |items| && Brings(v, j)
      modifies this
      ensures Valid() && repr == old(repr) + NodesOf(v) && view == Arr(old(view).items[i := j])
    {
      items := items[i := v];
      view := Arr(view.items[i := j]);
      repr := repr + NodesOf(v);
      forall k | 0 <= k < |items| && k != i ensures Shows(items[k], view.items[k]) && Separate(items[k], v) {
        assert old(Shows(items[k], view.items[k]));
      }
      assert Shows(v, j);
      forall k, l | 0 <= k < l < |items| ensures Separate(items[k], items[l]) {
        assert k != i && l != i ==> old(Separate(items[k], items[l]));
      }
    }

    /** `obj.append(value)` */
    method Append(v: Value, ghost j: Json)
      requires Valid() && isList && Brings(v, j)
      modifies this
      ensures Valid() && repr == old(repr) + NodesOf(v) && view == Arr(old(view).items + [j])
    {
      ghost var n := |items|;
      items := items + [v];
      view := Arr(view.items + [j]);
      repr := repr + NodesOf(v);
      forall k | 0 <= k < n ensures Shows(items[k], view.items[k]) && Separate(items[k], v) {
        assert old(Shows(items[k], view.items[k]));
      }
      assert Shows(v, j);
      forall k, l | 0 <= k < l < |items| ensures Separate(items[k], items[l]) {
        assert l < n ==> old(Separate(items[k], items[l]));
      }
    }
  }

  /** Updating below a key once its parent is in place. */
  lemma {:induction false} ThroughParent(
    fields: map<string, Json>, before: map<string, Json>, path: seq<string>, value: Json, parse: Parse)
    requires |path| > 1 && before == fields[path[0] := Parent(fields, path[0])]
    ensures var (child, ok) := Update(before[path[0]], path[1..], value, parse);
            Update(Obj(fields), path, value, parse) == (Obj(before[path[0] := child]), ok)
  {
    var child := Update(before[path[0]], path[1..], value, parse).0;
    assert before[path[0] := child] == fields[path[0] := child];
  }
}
