// What stands between the connections and a worker: a deque behind a mutex
// (lib/workers/DatabaseWorker.src.cc, lib/workers/TransmissionWorker.src.cc). It holds the
// sessions themselves, which their connections may still change.
module WorkerQueue {

  class Queue<T> {
    var items: seq<T>

    constructor ()
      ensures items == []
    {
      items := [];
    }

    method Push(item: T)
      modifies this
      ensures items == old(items) + [item]
    {
      items := items + [item];
    }

    // `back` and `pop_back`: what came last leaves first.
    method Pop() returns (item: T)
      requires items != []
      modifies this
      ensures items + [item] == old(items)
    {
      item := items[|items| - 1];
      items := items[..|items| - 1];
    }
  }
}
