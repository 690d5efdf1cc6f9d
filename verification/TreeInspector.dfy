/**
 * `ZookeeperTreeInspector`: pending, active and finished queues around asynchronous requests. Which
 * request completes when is up to the server; the class has to look like one first-in-first-out queue.
 */
module TreeInspector {
  import opened ZkTree

  /** What the server answers to a `get_children` request. */
  datatype Reply = Listed(children: seq<string>) | Vanished | Broken(code: int)

  datatype Node = Node(path: Path, children: seq<string>)

  /** A request under way: the `id`-th one sent, and whether its answer has arrived. */
  datatype Task = Task(path: Path, id: nat, ready: bool)

  datatype Result = Got(node: Node) | Exhausted | Raised(code: int)

  /** The nodes the answers to a list of requests amount to, vanished ones skipped. */
  function Delivered(answer: (nat, Path) -> Reply, paths: seq<Path>, first: nat): seq<Node> {
    if paths == [] then []
    else
      var rest := Delivered(answer, paths[1..], first + 1);
      match answer(first, paths[0])
      case Listed(children) => [Node(paths[0], children)] + rest
      case Vanished => rest
      case Broken(_) => rest
  }

  lemma {:induction false} DeliveredConcat(answer: (nat, Path) -> Reply, a: seq<Path>, b: seq<Path>, first: nat)
    ensures Delivered(answer, a + b, first) == Delivered(answer, a, first) + Delivered(answer, b, first + |a|)
  {
    if a == [] {
      assert a + b == b;
    } else {
      assert (a + b)[1..] == a[1..] + b;
      DeliveredConcat(answer, a[1..], b, first + 1);
    }
  }

  /** What one answer adds to the finished queue. */
  function Handed(answer: (nat, Path) -> Reply, path: Path, id: nat): seq<Node> {
    match answer(id, path)
    case Listed(children) => [Node(path, children)]
    case _ => []
  }

  /** None of the requests is answered with an error. */
  predicate Clean(answer: (nat, Path) -> Reply, paths: seq<Path>, first: nat) {
    paths == [] || (!answer(first, paths[0]).Broken? && Clean(answer, paths[1..], first + 1))
  }

  lemma {:induction false} CleanConcat(answer: (nat, Path) -> Reply, a: seq<Path>, b: seq<Path>, first: nat)
    ensures Clean(answer, a + b, first) <==> Clean(answer, a, first) && Clean(answer, b, first + |a|)
  {
    if a == [] {
      assert a + b == b;
    } else {
      assert (a + b)[1..] == a[1..] + b;
      CleanConcat(answer, a[1..], b, first + 1);
    }
  }

  function Paths(tasks: seq<Task>): (r: seq<Path>)
    ensures |r| == |tasks|
  {
    seq(|tasks|, i requires 0 <= i < |tasks| => tasks[i].path)
  }

  /** Active requests are consecutively numbered up to the last one sent. */
  ghost predicate Numbered(tasks: seq<Task>, next: nat) {
    |tasks| <= next && forall i :: 0 <= i < |tasks| ==> tasks[i].id == next - |tasks| + i
  }

  /** A bounded deque drops its leftmost entry when it overflows. */
  function BoundedAppend(tasks: seq<Task>, task: Task, limit: nat): (r: seq<Task>)
    ensures |tasks| < limit ==> r == tasks + [task]
  {
    var grown := tasks + [task];
    if |grown| <= limit then grown else grown[|grown| - limit..]
  }

  class Inspector {
    /** The answer to the n-th request; any behaviour of the server and of its other clients. */
    const answer: (nat, Path) -> Reply
    const maxActiveTasks: nat

    var pending: seq<Path>
    var active: seq<Task>
    var finished: seq<Node>
    var sent: nat

    ghost predicate Valid()
      reads this
    {
      maxActiveTasks >= 1 && |active| <= maxActiveTasks && Numbered(active, sent)
    }

    /** The requests without a processed answer, in the order they were asked for. */
    ghost function Open(): seq<Path>
      reads this
    {
      Paths(active) + pending
    }

    /** The number of the first of them. */
    ghost function First(): nat
      reads this
      requires Valid()
    {
      sent - |active|
    }

    /** The one queue all three stand for: the nodes still to be handed out, in order. */
    ghost function Queue(): seq<Node>
      reads this
      requires Valid()
    {
      finished + Delivered(answer, Open(), First())
    }

    /** No request that is still open will be answered with an error. */
    ghost predicate NoErrorAhead()
      reads this
      requires Valid()
    {
      Clean(answer, Open(), First())
    }

    constructor (answer: (nat, Path) -> Reply, maxParallelTasks: nat)
      requires maxParallelTasks >= 1
      ensures Valid() && Queue() == [] && NoErrorAhead()
      ensures this.answer == answer && sent == 0 && pending == [] && active == []
    {
      this.answer, this.maxActiveTasks := answer, maxParallelTasks;
      pending, active, finished, sent := [], [], [], 0;
    }

    /** Some answers arrive: any of the open requests may become ready. */
    method ServerActs()
      requires Valid()
      modifies this`active
      ensures Valid() && Open() == old(Open()) && |active| == |old(active)|
      ensures active != [] && old(active)[0].ready ==> active[0].ready
    {
      var i := 0;
      while i < |active|
        invariant Valid() && |active| == |old(active)|
        invariant Paths(active) == Paths(old(active))
        invariant active != [] && old(active)[0].ready ==> active[0].ready
      {
        if * {
          active := active[i := active[i].(ready := true)];
        }
        i := i + 1;
      }
    }

    /** `wait()` on the head of the active queue: others may become ready as well. */
    method AwaitHead()
      requires Valid() && active != []
      modifies this`active
      ensures Valid() && Open() == old(Open()) && |active| == |old(active)| && active[0].ready
    {
      active := active[0 := active[0].(ready := true)];
      assert Paths(active) == Paths(old(active));
      ServerActs();
    }

    method UpdatePendingQueue()
      requires Valid()
      modifies this`pending, this`active, this`sent
      ensures Valid() && Open() == old(Open()) && First() == old(First())
      ensures active == [] ==> pending == []
    {
      var free := maxActiveTasks - |active|;
      var toMove := if |pending| < free then |pending| else free;
      var i := 0;
      while i < toMove
        invariant 0 <= i <= toMove
        invariant Valid() && |active| == |old(active)| + i && |pending| == |old(pending)| - i
        invariant Open() == old(Open()) && First() == old(First())
      {
        var path := pending[0];
        assert pending == [path] + pending[1..];
        var grown := BoundedAppend(active, Task(path, sent, false), maxActiveTasks);
        assert Paths(grown) == Paths(active) + [path];
        pending, active, sent := pending[1..], grown, sent + 1;
        i := i + 1;
      }
    }

    /** Move the executed head of the active queue to the finished one. */
    method TakeHead() returns (error: Result)
      requires Valid() && active != []
      modifies this`active, this`finished
      ensures Valid() && !error.Got? && |active| == |old(active)| - 1
      ensures Open() == old(Open())[1..] && First() == old(First()) + 1
      ensures error.Raised? <==> answer(old(First()), old(Open())[0]).Broken?
      ensures finished == old(finished) + Handed(answer, old(Open())[0], old(First()))
    {
      var task := active[0];
      assert Open() == [task.path] + (Paths(active[1..]) + pending);
      active := active[1..];
      match answer(task.id, task.path) {
        case Listed(children) =>
          finished := finished + [Node(task.path, children)];
        case Vanished =>
        case Broken(code) => return Raised(code);
      }
      return Exhausted;
    }

    method FinishHead() returns (error: Result)
      requires Valid() && active != []
      modifies this`active, this`finished
      ensures Valid() && !error.Got? && |active| == |old(active)| - 1
      ensures error.Exhausted? ==> Queue() == old(Queue())
      ensures old(NoErrorAhead()) ==> error.Exhausted? && NoErrorAhead()
    {
      ghost var open, first, before := Open(), First(), finished;
      error := TakeHead();
    }

    /** Move executed tasks on; says whether one of them had failed. */
    method UpdateActiveQueue() returns (error: Result)
      requires Valid()
      modifies this`active, this`finished
      ensures Valid() && !error.Got?
      ensures error.Exhausted? ==> Queue() == old(Queue())
      ensures old(NoErrorAhead()) ==> error.Exhausted? && NoErrorAhead()
      ensures |active| <= |old(active)|
      ensures old(active) != [] && old(active)[0].ready ==> |active| < |old(active)|
    {
      ghost var headReady := active != [] && active[0].ready;
      ServerActs();
      while active != [] && active[0].ready
        invariant Valid() && Queue() == old(Queue()) && (old(NoErrorAhead()) ==> NoErrorAhead())
        invariant |active| <= |old(active)|
        invariant headReady ==> |active| < |old(active)| || (active != [] && active[0].ready)
        decreases |active|
      {
        error := FinishHead();
        if error.Raised? {
          return;
        }
        ServerActs();
      }
      return Exhausted;
    }

    method UpdateQueues() returns (error: Result)
      requires Valid()
      modifies this`pending, this`active, this`finished, this`sent
      ensures Valid() && !error.Got?
      ensures error.Exhausted? ==> Queue() == old(Queue())
      ensures old(NoErrorAhead()) ==> error.Exhausted? && NoErrorAhead()
    {
      error := UpdateActiveQueue();
      if error.Exhausted? {
        UpdatePendingQueue();
      }
    }

    predicate ExistsTasksToDo()
      reads this
    {
      |finished| + |pending| + |active| > 0
    }

    method WaitForTaskFinished() returns (error: Result)
      requires Valid()
      modifies this`pending, this`active, this`finished, this`sent
      ensures Valid() && !error.Got?
      ensures error.Exhausted? ==> Queue() == old(Queue()) && (finished != [] || !ExistsTasksToDo())
      ensures old(NoErrorAhead()) ==> error.Exhausted? && NoErrorAhead()
    {
      while ExistsTasksToDo() && finished == []
        invariant Valid() && Queue() == old(Queue()) && (old(NoErrorAhead()) ==> NoErrorAhead())
        decreases |pending| + |active|
      {
        ghost var open := |Open()|;
        UpdatePendingQueue();
        assert |Open()| == open;
        AwaitHead();
        error := UpdateActiveQueue();
        if error.Raised? {
          return;
        }
      }
      return Exhausted;
    }

    method Add(paths: seq<Path>) returns (error: Result)
      requires Valid()
      modifies this`pending, this`active, this`finished, this`sent
      ensures Valid() && !error.Got?
      ensures error.Exhausted? ==>
                Queue() == old(Queue()) + Delivered(answer, paths, old(First()) + |old(Open())|)
      ensures old(NoErrorAhead()) && Clean(answer, paths, old(First()) + |old(Open())|) ==>
                error.Exhausted? && NoErrorAhead()
    {
      ghost var before, first := Open(), First();
      DeliveredConcat(answer, before, paths, first);
      CleanConcat(answer, before, paths, first);
      pending := pending + paths;
      assert Open() == before + paths;
      error := UpdateQueues();
    }

    /** Hands out the head of the queue, whatever order the answers arrive in. */
    method Get() returns (r: Result)
      requires Valid()
      modifies this`pending, this`active, this`finished, this`sent
      ensures Valid()
      ensures r.Got? ==> old(Queue()) != [] && r.node == old(Queue())[0] && Queue() == old(Queue())[1..]
      ensures r.Exhausted? ==> old(Queue()) == [] && Queue() == [] && !ExistsTasksToDo()
      ensures r.Raised? ==> !old(NoErrorAhead())
      ensures old(NoErrorAhead()) ==> NoErrorAhead()
    {
      var error := UpdateQueues();
      if error.Raised? {
        return error;
      }
      if finished == [] {
        error := WaitForTaskFinished();
        if error.Raised? {
          return error;
        }
        if !ExistsTasksToDo() {
          return Exhausted;
        }
      }
      var node := finished[0];
      assert finished == [node] + finished[1..];
      finished := finished[1..];
      return Got(node);
    }
  }
}
