// The storing worker as it runs: the locked queue, the two stores it talks to and the
// paged loops over them (lib/workers/DatabaseWorker.src.cc, lib/models/UIDHolder.src.cc,
// lib/models/MailboxStatus.src.cc).
module StorageWorker {
  import opened MailStore
  import opened Storage
  import opened WorkerQueue
  import SS = SmtpServerSession
  import Mime

  // ---------------------------------------------------------------- pages

  function Flatten(pages: seq<seq<Shortcut>>): seq<Shortcut>
  {
    if pages == [] then [] else pages[0] + Flatten(pages[1..])
  }

  // A query with paging: `size` rows at a time, at least one page.
  method Pages(rows: seq<Shortcut>, size: nat) returns (pages: seq<seq<Shortcut>>)
    requires size > 0
    ensures Flatten(pages) == rows
  {
    pages := [];
    var at := 0;
    while at < |rows|
      invariant at <= |rows| && Flatten(pages) == rows[..at]
    {
      var end := if at + size < |rows| then at + size else |rows|;
      FlattenSnoc(pages, rows[at..end]);
      assert rows[..at] + rows[at..end] == rows[..end];
      pages := pages + [rows[at..end]];
      at := end;
    }
    assert rows[..at] == rows;
  }

  lemma {:induction false} FlattenSnoc(pages: seq<seq<Shortcut>>, page: seq<Shortcut>)
    ensures Flatten(pages + [page]) == Flatten(pages) + page
  {
    if pages == [] {
      assert [] + [page] == [page] && [page][1..] == [] && page + [] == page && [] + page == page;
    } else {
      assert (pages + [page])[1..] == pages[1..] + [page];
      FlattenSnoc(pages[1..], page);
      assert pages[0] + (Flatten(pages[1..]) + page) == pages[0] + Flatten(pages[1..]) + page;
    }
  }

  // ---------------------------------------------------------------- the stores

  class Redis {
    var uids: map<UidKey, int>
    var statuses: map<StatusKey, Status>
  }

  class Cassandra {
    var shortcuts: seq<Shortcut>
    var raws: seq<Raw>
    var mailboxes: map<MailboxKey, MailboxRow>
  }

  class DatabaseWorker {
    const redis: Redis
    const cassandra: Cassandra
    const queue: Queue<SS.ServerSession>
    const ids: nat -> Id
    var next: nat
    ghost var used: set<Uuid>
    ghost var cut: set<Uuid>

    ghost function View(): State
      reads this, redis, cassandra
    {
      State(Store(cassandra.shortcuts, cassandra.raws), cassandra.mailboxes, redis.uids, redis.statuses, used, cut)
    }

    constructor (redis: Redis, cassandra: Cassandra, queue: Queue<SS.ServerSession>, ids: nat -> Id)
      ensures this.redis == redis && this.cassandra == cassandra && this.queue == queue && this.ids == ids
      ensures next == 0 && used == {} && cut == {}
    {
      this.redis, this.cassandra, this.queue, this.ids := redis, cassandra, queue, ids;
      next, used, cut := 0, {}, {};
    }

    // `UIDHolder::restoreFromCassandra`: the paged maximum.
    method RestoreUid(owner: Owner) returns (largest: int)
      ensures largest == LargestUid(cassandra.shortcuts, owner)
    {
      hide LargestUid;
      var pages := Pages(cassandra.shortcuts, 50);
      ghost var seen: seq<Shortcut> := [];
      largest := 0;
      LargestOfNone(owner);
      assert pages[..0] == [];
      for i := 0 to |pages|
        invariant seen == Flatten(pages[..i]) && largest == LargestUid(seen, owner)
      {
        var page := pages[i];
        ghost var before := seen;
        assert pages[..i + 1] == pages[..i] + [page];
        FlattenSnoc(pages[..i], page);
        for k := 0 to |page|
          invariant seen == before + page[..k] && largest == LargestUid(seen, owner)
        {
          var row := page[k];
          RowAppended(seen, row, owner, "");
          if row.owner == owner && row.uid > largest {
            largest := row.uid;
          }
          assert before + page[..k + 1] == before + page[..k] + [row];
          seen := seen + [row];
        }
        assert page[..|page|] == page;
      }
      assert pages[..|pages|] == pages;
    }

    // `UIDHolder::getAndIncrement`
    method GetAndIncrement(bucket: int, owner: Owner) returns (uid: int)
      modifies redis
      ensures uid == NextUid(old(View()), bucket, owner)
      ensures redis.uids == old(redis.uids)[UidKey(bucket, owner) := uid] && redis.statuses == old(redis.statuses)
    {
      var key := UidKey(bucket, owner);
      if key in redis.uids {
        uid := redis.uids[key];
      } else {
        uid := RestoreUid(owner);
      }
      uid := uid + 1;
      redis.uids := redis.uids[key := uid];
    }

    // `MailboxStatus::restoreFromCassandra`: the paged recount.
    method Recount(bucket: int, owner: Owner, path: string) returns (res: Status)
      requires MailboxKey(bucket, owner, path) in cassandra.mailboxes
      ensures res == Restored(View(), bucket, owner, path)
    {
      hide CountUnseen;
      var mailbox := cassandra.mailboxes[MailboxKey(bucket, owner, path)];
      res := Status(mailbox.flags, 0, mailbox.count, 0, 0);
      var pages := Pages(cassandra.shortcuts, 50);
      ghost var seen: seq<Shortcut> := [];
      CountOfNone(owner, path);
      assert pages[..0] == [];
      for i := 0 to |pages|
        invariant seen == Flatten(pages[..i])
        invariant res == Status(mailbox.flags, CountUnseen(seen, owner, path), mailbox.count, 0, 0)
      {
        var page := pages[i];
        ghost var before := seen;
        assert pages[..i + 1] == pages[..i] + [page];
        FlattenSnoc(pages[..i], page);
        for k := 0 to |page|
          invariant seen == before + page[..k]
          invariant res == Status(mailbox.flags, CountUnseen(seen, owner, path), mailbox.count, 0, 0)
        {
          var row := page[k];
          RowAppended(seen, row, owner, path);
          if row.owner == owner && row.mailbox == path {
            if !row.seen {
              res := res.(unseen := res.unseen + 1);
            }
          }
          assert before + page[..k + 1] == before + page[..k] + [row];
          seen := seen + [row];
        }
        assert page[..|page|] == page;
      }
      assert pages[..|pages|] == pages;
    }

    // `MailboxStatus::get`: from the cache, else recounted and cached. What `clearRecent`
    // writes is no part of the status.
    method GetStatus(bucket: int, owner: Owner, path: string) returns (ok: bool, res: Status)
      modifies redis`statuses
      ensures ok == Restorable(old(View()), bucket, owner, path)
      ensures ok ==> res == CurrentStatus(old(View()), bucket, owner, path)
      ensures View() == if ok then ReadStatus(old(View()), bucket, owner, path) else old(View())
    {
      hide CountUnseen;
      var key := StatusKeyOf(bucket, owner, path);
      if key in redis.statuses {
        assert redis.statuses[key := redis.statuses[key]] == redis.statuses;
        return true, redis.statuses[key];
      }
      if MailboxKey(bucket, owner, path) !in cassandra.mailboxes {
        return false, Status(0, 0, 0, 0, 0);
      }
      res := Recount(bucket, owner, path);
      redis.statuses := redis.statuses[key := res];
      ok := true;
    }

    // `MailboxStatus::addOneMessage`
    method AddOne(bucket: int, owner: Owner, path: string) returns (ok: bool)
      modifies redis`statuses
      ensures ok == Restorable(old(View()), bucket, owner, path)
      ensures View() == if ok then AddOneMessage(old(View()), bucket, owner, path) else old(View())
    {
      hide CountUnseen;
      var status;
      ok, status := GetStatus(bucket, owner, path);
      if ok {
        status := status.(total := status.total + 1);
        status := status.(recent := status.recent + 1);
        status := status.(unseen := status.unseen + 1);
        redis.statuses := redis.statuses[StatusKeyOf(bucket, owner, path) := status];
      }
    }

    // The body of the loop over the storage tasks.
    method StoreOne(t: Task)
      modifies redis, cassandra`shortcuts, cassandra`raws, this`used, this`cut
      ensures View() == Delivered(old(View()), t)
    {
      hide CountUnseen, LargestUid, CString, Restorable, AddOneMessage;
      var uid := GetAndIncrement(t.bucket, t.owner);
      used := used + {t.mail};
      assert View() == CountUid(old(View()), t);
      var ok := AddOne(t.bucket, t.owner, t.path);
      if !ok {
        return;
      }
      cassandra.shortcuts := cassandra.shortcuts +
        [Shortcut(t.owner, t.path, t.mail, t.mailBucket, |t.content|, uid, false, false)];
      cassandra.raws := cassandra.raws + [Raw(t.mailBucket, t.owner, t.mail, CString(t.content))];
      cut := if 0 as char in t.content then cut + {t.mail} else cut;
      assert View().store.raws == AddOneMessage(CountUid(old(View()), t), t.bucket, t.owner, t.path).store.raws + [NewRaw(t)] by {
        CountingStoresNothing(CountUid(old(View()), t), t.bucket, t.owner, t.path);
      }
    }

    // `action`: as long as there is one, the session at the back of the queue is taken out,
    // and all the tasks it has by then are stored.
    method Action()
      modifies redis, cassandra`shortcuts, cassandra`raws, this`used, this`cut, this`next, queue
      ensures queue.items == []
      ensures View() == Work(old(View()), old(Batches(Sights(queue.items), ids, next)))
    {
      hide Delivered, StoreTasks, Loaded, Work, Batches, Sights;
      ghost var waiting, sessions := queue.items, Sights(queue.items);
      ghost var goal := Work(View(), Batches(sessions, ids, next));
      assert sessions[..|waiting|] == sessions;
      while queue.items != []
        invariant |queue.items| <= |waiting| && queue.items == waiting[..|queue.items|]
        invariant Sights(waiting) == sessions
        invariant Work(View(), Batches(sessions[..|queue.items|], ids, next)) == goal
        decreases |queue.items|
      {
        ghost var n := |queue.items| - 1;
        WorkStep(View(), sessions[..n + 1], ids, next);
        assert sessions[..n + 1][..n] == sessions[..n];
        var session := queue.Pop();
        assert session == waiting[n] && session.View() == sessions[n];
        StoreAll(session);
      }
      NoBatches(View(), ids, next);
    }

    // `getStorageTasks` and the loop over what it returns.
    method StoreAll(session: SS.ServerSession)
      modifies redis, cassandra`shortcuts, cassandra`raws, this`used, this`cut, this`next
      ensures View() == StoreTasks(old(View()), Loaded(session.View(), ids, old(next)))
      ensures next == old(next) + |session.m_StorageTasks|
    {
      hide Delivered, Loaded, StoreTasks, TaskOf;
      var storageTasks := session.m_StorageTasks;
      ghost var sight, first := session.View(), next;
      ghost var tasks := Loaded(sight, ids, first);
      assert tasks[0..] == tasks;
      for k := 0 to |storageTasks|
        invariant next == first + k && |tasks| == |storageTasks|
        invariant StoreTasks(View(), tasks[k..]) == StoreTasks(old(View()), tasks)
      {
        StoreStep(View(), tasks, k);
        LoadedAt(sight, ids, first, k);
        StoreOne(TaskOf(storageTasks[k], session.m_Raw, ids(next)));
        next := next + 1;
      }
      StoreNothing(View(), tasks);
    }
  }

  lemma LoadedAt(session: SS.Session, ids: nat -> Id, next: nat, k: nat)
    requires k < |session.storage|
    ensures Loaded(session, ids, next)[k] == TaskOf(session.storage[k], session.raw, ids(next + k))
  {
  }

  lemma StoreStep(st: State, tasks: Batch, k: nat)
    requires k < |tasks|
    ensures StoreTasks(st, tasks[k..]) == StoreTasks(Delivered(st, tasks[k]), tasks[k + 1..])
  {
    hide Delivered;
    assert tasks[k..][1..] == tasks[k + 1..];
  }

  lemma StoreNothing(st: State, tasks: Batch)
    ensures StoreTasks(st, tasks[|tasks|..]) == st
  {
  }

  lemma CountingStoresNothing(st: State, bucket: int, owner: Owner, path: string)
    requires Restorable(st, bucket, owner, path)
    ensures AddOneMessage(st, bucket, owner, path) == st.(statuses := AddOneMessage(st, bucket, owner, path).statuses)
  {
  }

  lemma LargestOfNone(owner: Owner)
    ensures LargestUid([], owner) == 0
  {
  }

  lemma CountOfNone(owner: Owner, path: string)
    ensures CountUnseen([], owner, path) == 0
  {
  }

  // ---------------------------------------------------------------- the queue

  // The storage tasks of a session when the worker reads them.
  type Batch = seq<Task>

  // The mailbox a storage target stands for.
  function MailboxOf(target: SS.StorageTarget): string
  {
    match target
    case Incoming => INBOX
    case SentBox => "INBOX.Sent"
    case Spam => "INBOX.Spam"
  }

  // The UUID and the bucket that are generated for a mail.
  datatype Id = Id(mail: Uuid, bucket: int)

  // What the worker makes of a task of the mail server: the account's owner and bucket, and
  // the text the session holds.
  function TaskOf(task: SS.StorageTask, raw: string, id: Id): Task
  {
    Task(task.account.bucket, task.account.owner, MailboxOf(task.target), raw, id.mail, id.bucket)
  }

  function Loaded(session: SS.Session, ids: nat -> Id, next: nat): (tasks: Batch)
    ensures |tasks| == |session.storage|
  {
    seq(|session.storage|, i requires 0 <= i < |session.storage| =>
      TaskOf(session.storage[i], session.raw, ids(next + i)))
  }

  // The queue as the worker finds it, if nothing changes until it is empty: the last
  // session takes the first identifiers.
  function Batches(queue: seq<SS.Session>, ids: nat -> Id, next: nat): (r: seq<Batch>)
    ensures |r| == |queue|
  {
    if queue == [] then []
    else
      var last := queue[|queue| - 1];
      Batches(queue[..|queue| - 1], ids, next + |last.storage|) + [Loaded(last, ids, next)]
  }

  ghost function Sights(queue: seq<SS.ServerSession>): (r: seq<SS.Session>)
    reads queue
    ensures |r| == |queue|
    ensures forall i :: 0 <= i < |queue| ==> r[i] == queue[i].View()
  {
    if queue == [] then [] else Sights(queue[..|queue| - 1]) + [queue[|queue| - 1].View()]
  }

  // The session at the back is taken first.
  lemma WorkStep(st: State, queue: seq<SS.Session>, ids: nat -> Id, next: nat)
    requires queue != []
    ensures var last := queue[|queue| - 1];
            Work(st, Batches(queue, ids, next)) ==
            Work(StoreTasks(st, Loaded(last, ids, next)), Batches(queue[..|queue| - 1], ids, next + |last.storage|))
  {
    hide StoreTasks, Loaded;
    BatchesStep(queue, ids, next);
  }

  lemma NoBatches(st: State, ids: nat -> Id, next: nat)
    ensures Work(st, Batches([], ids, next)) == st
  {
  }

  lemma BatchesStep(queue: seq<SS.Session>, ids: nat -> Id, next: nat)
    requires queue != []
    ensures var all, last := Batches(queue, ids, next), queue[|queue| - 1];
            && all[|queue| - 1] == Loaded(last, ids, next)
            && all[..|queue| - 1] == Batches(queue[..|queue| - 1], ids, next + |last.storage|)
  {
  }

  function StoreTasks(st: State, tasks: Batch): State
    decreases |tasks|
  {
    if tasks == [] then st else StoreTasks(Delivered(st, tasks[0]), tasks[1..])
  }

  // The session that was pushed last is stored first.
  function Work(st: State, queue: seq<Batch>): State
    decreases |queue|
  {
    if queue == [] then st
    else Work(StoreTasks(st, queue[|queue| - 1]), queue[..|queue| - 1])
  }

  // All tasks in the order of the work.
  function Tasks(queue: seq<Batch>): seq<Task>
  {
    if queue == [] then [] else queue[|queue| - 1] + Tasks(queue[..|queue| - 1])
  }

  function Ops(tasks: seq<Task>): (ops: seq<Op>)
    ensures |ops| == |tasks|
  {
    seq(|tasks|, i requires 0 <= i < |tasks| => Deliver(tasks[i]))
  }

  lemma {:induction false} RunAppend(st: State, a: seq<Op>, b: seq<Op>)
    ensures Run(st, a + b) == Run(Run(st, a), b)
    decreases |a|
  {
    hide Apply;
    if a == [] {
      assert a + b == b;
    } else {
      assert (a + b)[1..] == a[1..] + b;
      RunAppend(Apply(st, a[0]), a[1..], b);
    }
  }

  lemma {:induction false} StoringIsDelivering(st: State, tasks: Batch)
    ensures StoreTasks(st, tasks) == Run(st, Ops(tasks))
    decreases |tasks|
  {
    hide Delivered;
    if tasks != [] {
      assert Ops(tasks)[1..] == Ops(tasks[1..]);
      StoringIsDelivering(Delivered(st, tasks[0]), tasks[1..]);
    }
  }

  lemma TasksStep(queue: seq<Batch>)
    requires queue != []
    ensures Tasks(queue) == queue[|queue| - 1] + Tasks(queue[..|queue| - 1])
  {
  }

  // The worker's work is a run of deliveries, every task of every queued session once, the
  // last session first: all that is proved of runs holds of it.
  lemma {:induction false} WorkIsARun(st: State, queue: seq<Batch>)
    ensures Work(st, queue) == Run(st, Ops(Tasks(queue)))
    decreases |queue|
  {
    if queue == [] {
      assert Ops(Tasks(queue)) == [];
    }
    if queue != [] {
      var last, rest := queue[|queue| - 1], queue[..|queue| - 1];
      hide StoreTasks, Run, Tasks;
      TasksStep(queue);
      StoringIsDelivering(st, last);
      WorkIsARun(StoreTasks(st, last), rest);
      assert Ops(Tasks(queue)) == Ops(last) + Ops(Tasks(rest));
      RunAppend(st, Ops(last), Ops(Tasks(rest)));
    }
  }

  // The worker's deliveries may happen: all accounts have their bucket, and the generated
  // identifiers are new.
  ghost predicate NewIds(ids: nat -> Id, next: nat, used: set<Uuid>)
  {
    && (forall i: nat :: i >= next ==> ids(i).mail !in used)
    && (forall i: nat, j: nat :: next <= i < j ==> ids(i).mail != ids(j).mail)
  }

  // Task `k` has the next identifier but `k`, and its owner is an account of that bucket.
  predicate DrawnAt(tasks: seq<Task>, k: nat, ids: nat -> Id, next: nat, accounts: map<Owner, int>)
    requires k < |tasks|
  {
    && tasks[k].mail == ids(next + k).mail
    && tasks[k].owner in accounts && accounts[tasks[k].owner] == tasks[k].bucket
  }

  predicate Drawn(tasks: seq<Task>, ids: nat -> Id, next: nat, accounts: map<Owner, int>)
  {
    forall k :: 0 <= k < |tasks| ==> DrawnAt(tasks, k, ids, next, accounts)
  }

  predicate Known(session: SS.Session, accounts: map<Owner, int>)
  {
    forall t :: t in session.storage ==> t.account.owner in accounts && accounts[t.account.owner] == t.account.bucket
  }

  lemma LoadedIsDrawn(session: SS.Session, ids: nat -> Id, next: nat, accounts: map<Owner, int>)
    requires Known(session, accounts)
    ensures Drawn(Loaded(session, ids, next), ids, next, accounts)
  {
    assert forall i :: 0 <= i < |session.storage| ==> session.storage[i] in session.storage;
  }

  lemma DrawnAppend(a: seq<Task>, b: seq<Task>, ids: nat -> Id, next: nat, accounts: map<Owner, int>)
    requires Drawn(a, ids, next, accounts) && Drawn(b, ids, next + |a|, accounts)
    ensures Drawn(a + b, ids, next, accounts)
  {
    var all := a + b;
    forall k | 0 <= k < |all| ensures DrawnAt(all, k, ids, next, accounts) {
      if k < |a| {
        assert DrawnAt(a, k, ids, next, accounts);
      } else {
        assert DrawnAt(b, k - |a|, ids, next + |a|, accounts);
      }
    }
  }

  lemma {:induction false} TasksInOrder(queue: seq<SS.Session>, ids: nat -> Id, next: nat, accounts: map<Owner, int>)
    requires forall x :: x in queue ==> Known(x, accounts)
    ensures Drawn(Tasks(Batches(queue, ids, next)), ids, next, accounts)
    decreases |queue|
  {
    hide Drawn, Loaded, Known;
    if queue == [] {
      NothingDrawn(ids, next, accounts);
    } else {
      var last := queue[|queue| - 1];
      var n := next + |last.storage|;
      assert last in queue && forall x :: x in queue[..|queue| - 1] ==> x in queue;
      BatchesStep(queue, ids, next);
      LoadedIsDrawn(last, ids, next, accounts);
      TasksInOrder(queue[..|queue| - 1], ids, n, accounts);
      TasksStep(Batches(queue, ids, next));
      DrawnAppend(Loaded(last, ids, next), Tasks(Batches(queue[..|queue| - 1], ids, n)), ids, next, accounts);
    }
  }

  lemma NothingDrawn(ids: nat -> Id, next: nat, accounts: map<Owner, int>)
    ensures Drawn([], ids, next, accounts)
  {
  }

  lemma {:induction false} DeliveriesArePossible(st: State, tasks: seq<Task>, ids: nat -> Id, next: nat, accounts: map<Owner, int>)
    requires NewIds(ids, next, st.used) && Drawn(tasks, ids, next, accounts)
    ensures Possible(st, Ops(tasks), accounts)
    decreases |tasks|
  {
    hide LargestUid, CountUnseen, CString;
    if tasks != [] {
      assert Ops(tasks)[1..] == Ops(tasks[1..]);
      var rest, n := tasks[1..], next + 1;
      assert DrawnAt(tasks, 0, ids, next, accounts);
      assert Delivered(st, tasks[0]).used == st.used + {tasks[0].mail};
      forall k | 0 <= k < |rest| ensures DrawnAt(rest, k, ids, n, accounts) {
        assert DrawnAt(tasks, k + 1, ids, next, accounts);
      }
      DeliveriesArePossible(Delivered(st, tasks[0]), rest, ids, n, accounts);
    }
  }

  // So the work on a queue of sessions is a run to which the laws of the store apply.
  lemma WorkIsPossible(st: State, queue: seq<SS.Session>, ids: nat -> Id, next: nat, accounts: map<Owner, int>)
    requires NewIds(ids, next, st.used) && forall x :: x in queue ==> Known(x, accounts)
    ensures var ops := Ops(Tasks(Batches(queue, ids, next)));
            Work(st, Batches(queue, ids, next)) == Run(st, ops) && Possible(st, ops, accounts)
  {
    hide Work, Run, Possible, Known, Tasks, Batches;
    WorkIsARun(st, Batches(queue, ids, next));
    TasksInOrder(queue, ids, next, accounts);
    DeliveriesArePossible(st, Tasks(Batches(queue, ids, next)), ids, next, accounts);
  }

  // ---------------------------------------------------------------- the order of the UIDs

  function TaskUids(st: State, tasks: Batch): (uids: seq<int>)
    ensures |uids| == |tasks|
    decreases |tasks|
  {
    if tasks == [] then []
    else [NextUid(st, tasks[0].bucket, tasks[0].owner)] + TaskUids(Delivered(st, tasks[0]), tasks[1..])
  }

  // The state in which session `i` of the queue is taken.
  function Before(st: State, queue: seq<Batch>, i: nat): State
    requires i < |queue|
    decreases |queue|
  {
    if i == |queue| - 1 then st else Before(StoreTasks(st, queue[|queue| - 1]), queue[..|queue| - 1], i)
  }

  // The UID that task `a` of session `i` gets.
  function UidAt(st: State, queue: seq<Batch>, i: nat, a: nat): int
    requires i < |queue| && a < |queue[i]|
  {
    TaskUids(Before(st, queue, i), queue[i])[a]
  }

  predicate SameCounter(t: Task, u: Task)
  {
    t.owner == u.owner && t.bucket == u.bucket
  }

  function CounterOf(t: Task): UidKey
  {
    UidKey(t.bucket, t.owner)
  }

  // The counter is cached and has reached `least`.
  predicate Reached(st: State, key: UidKey, least: int)
  {
    key in st.uids && st.uids[key] >= least
  }

  lemma DeliveryCounts(st: State, t: Task, key: UidKey, least: int)
    ensures Reached(st, key, least) ==> Reached(Delivered(st, t), key, least)
    ensures Reached(Delivered(st, t), CounterOf(t), NextUid(st, t.bucket, t.owner))
    ensures Reached(st, CounterOf(t), least) ==> NextUid(st, t.bucket, t.owner) > least
  {
    hide LargestUid, CountUnseen, CString;
  }

  lemma {:induction false} BatchCounts(st: State, tasks: Batch, key: UidKey, least: int)
    requires Reached(st, key, least)
    ensures Reached(StoreTasks(st, tasks), key, least)
    ensures forall a :: 0 <= a < |tasks| && CounterOf(tasks[a]) == key ==> TaskUids(st, tasks)[a] > least
    decreases |tasks|
  {
    hide Delivered, NextUid, Reached;
    if tasks != [] {
      DeliveryCounts(st, tasks[0], key, least);
      BatchCounts(Delivered(st, tasks[0]), tasks[1..], key, least);
    }
  }

  // Within a session, and behind it.
  lemma {:induction false} BatchAscends(st: State, tasks: Batch, b: nat)
    requires b < |tasks|
    ensures Reached(StoreTasks(st, tasks), CounterOf(tasks[b]), TaskUids(st, tasks)[b])
    ensures forall a :: b < a < |tasks| && SameCounter(tasks[a], tasks[b]) ==> TaskUids(st, tasks)[b] < TaskUids(st, tasks)[a]
    decreases |tasks|
  {
    hide Delivered, NextUid, Reached;
    var next := Delivered(st, tasks[0]);
    if b == 0 {
      DeliveryCounts(st, tasks[0], CounterOf(tasks[0]), 0);
      BatchCounts(next, tasks[1..], CounterOf(tasks[0]), NextUid(st, tasks[0].bucket, tasks[0].owner));
      assert forall a :: 0 < a < |tasks| ==> tasks[a] == tasks[1..][a - 1] && TaskUids(st, tasks)[a] == TaskUids(next, tasks[1..])[a - 1];
    } else {
      BatchAscends(next, tasks[1..], b - 1);
      assert forall a :: 0 < a < |tasks| ==> tasks[a] == tasks[1..][a - 1] && TaskUids(st, tasks)[a] == TaskUids(next, tasks[1..])[a - 1];
    }
  }

  lemma {:induction false} ReachedBefore(st: State, queue: seq<Batch>, i: nat, key: UidKey, least: int)
    requires i < |queue| && Reached(st, key, least)
    ensures Reached(Before(st, queue, i), key, least)
    decreases |queue|
  {
    hide StoreTasks, Reached;
    if i < |queue| - 1 {
      BatchCounts(st, queue[|queue| - 1], key, least);
      ReachedBefore(StoreTasks(st, queue[|queue| - 1]), queue[..|queue| - 1], i, key, least);
    }
  }

  lemma {:induction false} StoredBefore(st: State, queue: seq<Batch>, i: nat, j: nat, b: nat)
    requires i < j < |queue| && b < |queue[j]|
    ensures Reached(Before(st, queue, i), CounterOf(queue[j][b]), UidAt(st, queue, j, b))
    decreases |queue|
  {
    hide StoreTasks, Reached, TaskUids;
    var last := queue[|queue| - 1];
    if j == |queue| - 1 {
      BatchAscends(st, last, b);
      ReachedBefore(StoreTasks(st, last), queue[..j], i, CounterOf(last[b]), TaskUids(st, last)[b]);
    } else {
      StoredBefore(StoreTasks(st, last), queue[..|queue| - 1], i, j, b);
    }
  }

  // Of two mails of an owner that wait in different sessions, the one of the session that
  // was queued later gets the lower UID.
  lemma LaterMailLowerUid(st: State, queue: seq<Batch>, i: nat, j: nat, a: nat, b: nat)
    requires i < j < |queue| && a < |queue[i]| && b < |queue[j]| && SameCounter(queue[i][a], queue[j][b])
    ensures UidAt(st, queue, j, b) < UidAt(st, queue, i, a)
  {
    hide Before, TaskUids, Reached;
    StoredBefore(st, queue, i, j, b);
    BatchCounts(Before(st, queue, i), queue[i], CounterOf(queue[i][a]), UidAt(st, queue, j, b));
  }

  ghost predicate FollowsArrival(st: State, queue: seq<Batch>)
  {
    forall i, j, a, b :: 0 <= i < j < |queue| && 0 <= a < |queue[i]| && 0 <= b < |queue[j]| ==>
      (SameCounter(queue[i][a], queue[j][b]) ==> UidAt(st, queue, i, a) < UidAt(st, queue, j, b))
  }

  ghost predicate OwnersApart(queue: seq<Batch>)
  {
    forall i, j, a, b :: 0 <= i < j < |queue| && 0 <= a < |queue[i]| && 0 <= b < |queue[j]| ==>
      !SameCounter(queue[i][a], queue[j][b])
  }

  // The UIDs follow the arrival of the mails exactly if no two waiting sessions hold mail
  // for the same owner.
  lemma ArrivalOrder(st: State, queue: seq<Batch>)
    ensures FollowsArrival(st, queue) <==> OwnersApart(queue)
  {
    hide UidAt, SameCounter;
    forall i, j, a, b | 0 <= i < j < |queue| && 0 <= a < |queue[i]| && 0 <= b < |queue[j]|
        && SameCounter(queue[i][a], queue[j][b])
      ensures UidAt(st, queue, j, b) < UidAt(st, queue, i, a)
    {
      LaterMailLowerUid(st, queue, i, j, a, b);
    }
  }

  lemma WorkLast(st: State, queue: seq<Batch>, last: Batch)
    ensures Work(st, queue + [last]) == Work(StoreTasks(st, last), queue)
  {
    hide StoreTasks;
    assert (queue + [last])[..|queue|] == queue;
  }

  lemma WorkNothing(st: State)
    ensures Work(st, []) == st
  {
  }

  lemma OneTask(st: State, t: Task)
    ensures StoreTasks(st, [t]) == Delivered(st, t)
  {
    hide Delivered;
    assert [t][1..] == [];
  }

  // ---------------------------------------------------------------- from the mail server

  // Which mailbox of whom a row belongs to.
  function Places(rows: seq<Shortcut>): (r: seq<(Owner, string)>)
    ensures |r| == |rows|
  {
    seq(|rows|, i requires 0 <= i < |rows| => (rows[i].owner, rows[i].mailbox))
  }

  function TaskPlaces(tasks: Batch): (r: seq<(Owner, string)>)
    ensures |r| == |tasks|
  {
    seq(|tasks|, i requires 0 <= i < |tasks| => (tasks[i].owner, tasks[i].path))
  }

  // If every mailbox has its row, every task is stored, once and in order.
  lemma {:induction false} EveryTaskIsStored(st: State, tasks: Batch)
    requires forall k :: 0 <= k < |tasks| ==> MailboxKey(tasks[k].bucket, tasks[k].owner, tasks[k].path) in st.mailboxes
    ensures var after := StoreTasks(st, tasks);
            && after.mailboxes == st.mailboxes
            && Places(after.store.shortcuts) == Places(st.store.shortcuts) + TaskPlaces(tasks)
            && |after.store.raws| == |st.store.raws| + |tasks|
    decreases |tasks|
  {
    hide Delivered, Places;
    if tasks == [] {
      assert TaskPlaces(tasks) == [] && Places(st.store.shortcuts) + [] == Places(st.store.shortcuts);
    } else {
      var next := Delivered(st, tasks[0]);
      DeliveryStores(st, tasks[0]);
      EveryTaskIsStored(next, tasks[1..]);
      var first := [(tasks[0].owner, tasks[0].path)];
      assert TaskPlaces(tasks) == first + TaskPlaces(tasks[1..]);
      Mime.Assoc(Places(st.store.shortcuts), first, TaskPlaces(tasks[1..]));
    }
  }

  lemma DeliveryStores(st: State, t: Task)
    requires MailboxKey(t.bucket, t.owner, t.path) in st.mailboxes
    ensures var after := Delivered(st, t);
            && after.mailboxes == st.mailboxes
            && Places(after.store.shortcuts) == Places(st.store.shortcuts) + [(t.owner, t.path)]
            && |after.store.raws| == |st.store.raws| + 1
  {
    hide LargestUid, CountUnseen, CString;
  }

  // What waits for the worker: a task of a session, and the text the session holds.
  datatype Waiting = Waiting(task: SS.StorageTask, text: string)

  function WaitingIn(session: SS.Session): (r: seq<Waiting>)
    ensures |r| == |session.storage|
  {
    seq(|session.storage|, i requires 0 <= i < |session.storage| => Waiting(session.storage[i], session.raw))
  }

  // The storage lists of the sessions, that of the last session first.
  function InOrder(queue: seq<SS.Session>): seq<Waiting>
    decreases |queue|
  {
    if queue == [] then [] else WaitingIn(queue[|queue| - 1]) + InOrder(queue[..|queue| - 1])
  }

  predicate BoxExists(st: State, task: SS.StorageTask)
  {
    var a := task.account;
    && (task.target == SS.Incoming ==> MailboxKey(a.bucket, a.owner, "INBOX") in st.mailboxes)
    && (task.target == SS.SentBox ==> MailboxKey(a.bucket, a.owner, "INBOX.Sent") in st.mailboxes)
    && (task.target == SS.Spam ==> MailboxKey(a.bucket, a.owner, "INBOX.Spam") in st.mailboxes)
  }

  // The two rows of a task: the owner's, in the mailbox of its target, with the text.
  predicate StoredFor(row: Shortcut, raw: Raw, w: Waiting, id: Id)
  {
    && row.owner == raw.owner == w.task.account.owner
    && (w.task.target == SS.Incoming ==> row.mailbox == "INBOX")
    && (w.task.target == SS.SentBox ==> row.mailbox == "INBOX.Sent")
    && (w.task.target == SS.Spam ==> row.mailbox == "INBOX.Spam")
    && row.mail == raw.mail == id.mail && row.bucket == raw.bucket == id.bucket
    && row.octets == |w.text| && raw.content == CString(w.text) && !row.seen && !row.deleted
  }

  lemma {:induction false} TasksOfQueue(queue: seq<SS.Session>, ids: nat -> Id, next: nat)
    ensures var tasks, waiting := Tasks(Batches(queue, ids, next)), InOrder(queue);
            && |tasks| == |waiting|
            && forall k :: 0 <= k < |waiting| ==> tasks[k] == TaskOf(waiting[k].task, waiting[k].text, ids(next + k))
    decreases |queue|
  {
    hide TaskOf, Tasks, Batches, Loaded, WaitingIn;
    if queue == [] {
      NoTasksYet(ids, next);
    } else {
      var last, rest := queue[|queue| - 1], queue[..|queue| - 1];
      var n := next + |last.storage|;
      BatchesStep(queue, ids, next);
      TasksStep(Batches(queue, ids, next));
      TasksOfQueue(rest, ids, n);
      TasksBehind(last, rest, ids, next);
    }
  }

  lemma NoTasksYet(ids: nat -> Id, next: nat)
    ensures Tasks(Batches([], ids, next)) == []
  {
  }

  lemma TasksBehind(last: SS.Session, rest: seq<SS.Session>, ids: nat -> Id, next: nat)
    requires var n := next + |last.storage|;
             var tasks, waiting := Tasks(Batches(rest, ids, n)), InOrder(rest);
             && |tasks| == |waiting|
             && forall k :: 0 <= k < |waiting| ==> tasks[k] == TaskOf(waiting[k].task, waiting[k].text, ids(n + k))
    ensures var n := next + |last.storage|;
            var tasks, waiting := Loaded(last, ids, next) + Tasks(Batches(rest, ids, n)), WaitingIn(last) + InOrder(rest);
            && |tasks| == |waiting|
            && forall k :: 0 <= k < |waiting| ==> tasks[k] == TaskOf(waiting[k].task, waiting[k].text, ids(next + k))
  {
    hide TaskOf, Tasks, Batches, InOrder;
    var n := next + |last.storage|;
    var a, b := Tasks(Batches(rest, ids, n)), InOrder(rest);
    var tasks, waiting := Loaded(last, ids, next) + a, WaitingIn(last) + b;
    forall k | 0 <= k < |waiting| ensures tasks[k] == TaskOf(waiting[k].task, waiting[k].text, ids(next + k)) {
      if k >= |last.storage| {
        assert tasks[k] == a[k - |last.storage|] && waiting[k] == b[k - |last.storage|];
      }
    }
  }

  // What is stored of a task, whatever UID it gets.
  predicate RowsOf(row: Shortcut, raw: Raw, t: Task)
  {
    row == Shortcut(t.owner, t.path, t.mail, t.mailBucket, |t.content|, row.uid, false, false) && raw == NewRaw(t)
  }

  lemma {:induction false} RowsAreStored(st: State, tasks: seq<Task>)
    requires forall k :: 0 <= k < |tasks| ==> MailboxKey(tasks[k].bucket, tasks[k].owner, tasks[k].path) in st.mailboxes
    ensures var a, b := st.store, StoreTasks(st, tasks).store;
            && |b.shortcuts| == |a.shortcuts| + |tasks| && b.shortcuts[..|a.shortcuts|] == a.shortcuts
            && |b.raws| == |a.raws| + |tasks| && b.raws[..|a.raws|] == a.raws
            && forall k :: 0 <= k < |tasks| ==> RowsOf(b.shortcuts[|a.shortcuts| + k], b.raws[|a.raws| + k], tasks[k])
    decreases |tasks|
  {
    hide Delivered, RowsOf;
    if tasks != [] {
      var next := Delivered(st, tasks[0]);
      DeliveryAppends(st, tasks[0]);
      RowsAreStored(next, tasks[1..]);
      var a, m, b := st.store, next.store, StoreTasks(next, tasks[1..]).store;
      assert b.shortcuts[..|m.shortcuts|][..|a.shortcuts|] == b.shortcuts[..|a.shortcuts|];
      assert b.raws[..|m.raws|][..|a.raws|] == b.raws[..|a.raws|];
      assert b.shortcuts[..|m.shortcuts|][|a.shortcuts|] == b.shortcuts[|a.shortcuts|];
      assert b.raws[..|m.raws|][|a.raws|] == b.raws[|a.raws|];
      forall k | 0 <= k < |tasks| ensures RowsOf(b.shortcuts[|a.shortcuts| + k], b.raws[|a.raws| + k], tasks[k]) {
        if k > 0 {
          assert RowsOf(b.shortcuts[|m.shortcuts| + (k - 1)], b.raws[|m.raws| + (k - 1)], tasks[1..][k - 1]);
        }
      }
    }
  }

  lemma DeliveryAppends(st: State, t: Task)
    requires MailboxKey(t.bucket, t.owner, t.path) in st.mailboxes
    ensures var a, b := st.store, Delivered(st, t).store;
            && Delivered(st, t).mailboxes == st.mailboxes
            && |b.shortcuts| == |a.shortcuts| + 1 && b.shortcuts[..|a.shortcuts|] == a.shortcuts
            && |b.raws| == |a.raws| + 1 && b.raws[..|a.raws|] == a.raws
            && RowsOf(b.shortcuts[|a.shortcuts|], b.raws[|a.raws|], t)
  {
    hide LargestUid, CountUnseen, CString;
  }

  lemma BoxOfTask(w: Waiting, id: Id, st: State)
    requires BoxExists(st, w.task)
    ensures var t := TaskOf(w.task, w.text, id); MailboxKey(t.bucket, t.owner, t.path) in st.mailboxes
  {
  }

  lemma RowsAreFor(row: Shortcut, raw: Raw, w: Waiting, id: Id)
    requires RowsOf(row, raw, TaskOf(w.task, w.text, id))
    ensures StoredFor(row, raw, w, id)
  {
    hide CString;
  }

  // The work on any queue of sessions whose mailboxes exist: one row more in each table for
  // every task, in the order of the work, in the mailbox its target names, with the text of
  // its session.
  lemma QueueIsStored(st: State, queue: seq<SS.Session>, ids: nat -> Id, next: nat)
    requires forall k :: 0 <= k < |InOrder(queue)| ==> BoxExists(st, InOrder(queue)[k].task)
    ensures var a, b := st.store, Work(st, Batches(queue, ids, next)).store;
            var waiting := InOrder(queue);
            && |b.shortcuts| == |a.shortcuts| + |waiting| && b.shortcuts[..|a.shortcuts|] == a.shortcuts
            && |b.raws| == |a.raws| + |waiting| && b.raws[..|a.raws|] == a.raws
            && forall k :: 0 <= k < |waiting| ==>
                 StoredFor(b.shortcuts[|a.shortcuts| + k], b.raws[|a.raws| + k], waiting[k], ids(next + k))
  {
    hide StoreTasks, Work, Run, Tasks, Batches, InOrder, TaskOf, BoxExists, RowsOf, StoredFor;
    var tasks, waiting := Tasks(Batches(queue, ids, next)), InOrder(queue);
    TasksOfQueue(queue, ids, next);
    WorkIsARun(st, Batches(queue, ids, next));
    StoringIsDelivering(st, tasks);
    forall k | 0 <= k < |tasks|
      ensures MailboxKey(tasks[k].bucket, tasks[k].owner, tasks[k].path) in st.mailboxes
    {
      BoxOfTask(waiting[k], ids(next + k), st);
    }
    RowsAreStored(st, tasks);
    var a, b := st.store, StoreTasks(st, tasks).store;
    forall k | 0 <= k < |waiting|
      ensures StoredFor(b.shortcuts[|a.shortcuts| + k], b.raws[|a.raws| + k], waiting[k], ids(next + k))
    {
      RowsAreFor(b.shortcuts[|a.shortcuts| + k], b.raws[|a.raws| + k], waiting[k], ids(next + k));
    }
  }
}
