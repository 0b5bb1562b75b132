// Where mail ends up: the UID counter, the mailbox status, the two tables
// (lib/models/UIDHolder.src.cc, lib/models/MailboxStatus.src.cc,
// lib/workers/DatabaseWorker.src.cc). Redis is a cache that may lose keys; Cassandra is
// the truth; one worker does the storing.
module Storage {
  import opened MailStore

  // ---------------------------------------------------------------- state

  datatype Status = Status(flags: int, unseen: int, total: int, permaFlags: int, recent: int)

  datatype UidKey = UidKey(bucket: int, owner: Owner)

  // The status key holds the time stamp of the owner's UUID, not the UUID.
  datatype StatusKey = StatusKey(bucket: int, domain: string, time: nat, path: string)

  datatype MailboxKey = MailboxKey(bucket: int, owner: Owner, path: string)

  datatype MailboxRow = MailboxRow(count: int, flags: int)

  // `used` holds every mail UUID ever generated, `cut` those of mails with a NUL in them.
  datatype State = State(
    store: Store, mailboxes: map<MailboxKey, MailboxRow>, uids: map<UidKey, int>, statuses: map<StatusKey, Status>,
    used: set<Uuid>, cut: set<Uuid>)

  function StatusKeyOf(bucket: int, owner: Owner, path: string): StatusKey
  {
    StatusKey(bucket, owner.domain, owner.uuid.time, path)
  }

  // `cass_statement_bind_string` ends at the first NUL.
  function CString(s: string): (t: string)
    ensures |t| <= |s|
    ensures |t| == |s| <==> 0 as char !in s
  {
    if s == "" || s[0] == 0 as char then "" else [s[0]] + CString(s[1..])
  }

  // ---------------------------------------------------------------- the UID counter

  // The largest UID of an owner's mails in any mailbox, or 0.
  function LargestUid(rows: seq<Shortcut>, owner: Owner): int
  {
    if rows == [] then 0
    else
      var rest := LargestUid(rows[1..], owner);
      if rows[0].owner == owner && rows[0].uid > rest then rows[0].uid else rest
  }

  function NextUid(st: State, bucket: int, owner: Owner): int
  {
    var key := UidKey(bucket, owner);
    (if key in st.uids then st.uids[key] else LargestUid(st.store.shortcuts, owner)) + 1
  }

  // ---------------------------------------------------------------- the mailbox status

  function CountUnseen(rows: seq<Shortcut>, owner: Owner, path: string): nat
  {
    if rows == [] then 0
    else
      (if rows[0].owner == owner && rows[0].mailbox == path && !rows[0].seen then 1 else 0)
      + CountUnseen(rows[1..], owner, path)
  }

  // The status as it is recounted; without a row of the mailbox there is none.
  predicate Restorable(st: State, bucket: int, owner: Owner, path: string)
  {
    StatusKeyOf(bucket, owner, path) in st.statuses || MailboxKey(bucket, owner, path) in st.mailboxes
  }

  function Restored(st: State, bucket: int, owner: Owner, path: string): Status
    requires MailboxKey(bucket, owner, path) in st.mailboxes
  {
    var row := st.mailboxes[MailboxKey(bucket, owner, path)];
    Status(row.flags, CountUnseen(st.store.shortcuts, owner, path), row.count, 0, 0)
  }

  function CurrentStatus(st: State, bucket: int, owner: Owner, path: string): Status
    requires Restorable(st, bucket, owner, path)
  {
    var key := StatusKeyOf(bucket, owner, path);
    if key in st.statuses then st.statuses[key] else Restored(st, bucket, owner, path)
  }

  // Reading the status caches it. The count of recent messages is meant to go back to zero,
  // but `clearRecent` writes a sixth field of the record, which nobody reads.
  function ReadStatus(st: State, bucket: int, owner: Owner, path: string): State
    requires Restorable(st, bucket, owner, path)
  {
    st.(statuses := st.statuses[StatusKeyOf(bucket, owner, path) := CurrentStatus(st, bucket, owner, path)])
  }

  function OneMore(s: Status): Status
  {
    s.(total := s.total + 1, recent := s.recent + 1, unseen := s.unseen + 1)
  }

  function AddOneMessage(st: State, bucket: int, owner: Owner, path: string): State
    requires Restorable(st, bucket, owner, path)
  {
    st.(statuses := st.statuses[StatusKeyOf(bucket, owner, path) := OneMore(CurrentStatus(st, bucket, owner, path))])
  }

  // ---------------------------------------------------------------- operations

  // One storage task, with the UUID and the bucket that are generated for its mail.
  datatype Task = Task(bucket: int, owner: Owner, path: string, content: string, mail: Uuid, mailBucket: int)

  datatype Op =
    | Deliver(task: Task)
    | ReadOne(bucket: int, owner: Owner, path: string)
    | LoseUid(uidKey: UidKey)
    | LoseStatus(statusKey: StatusKey)
    | DeleteMails(owner: Owner, mails: seq<Reference>)

  function CountUid(st: State, t: Task): State
  {
    st.(uids := st.uids[UidKey(t.bucket, t.owner) := NextUid(st, t.bucket, t.owner)],
        used := st.used + {t.mail})
  }

  function NewShortcut(st: State, t: Task): Shortcut
  {
    Shortcut(t.owner, t.path, t.mail, t.mailBucket, |t.content|, NextUid(st, t.bucket, t.owner), false, false)
  }

  function NewRaw(t: Task): Raw
  {
    Raw(t.mailBucket, t.owner, t.mail, CString(t.content))
  }

  // UID, status, shortcut, raw mail, in this order. A mailbox without a row and without a
  // cached status ends the task behind the first step: the UID is spent and nothing stored.
  function Delivered(st: State, t: Task): State
  {
    var u := CountUid(st, t);
    if !Restorable(u, t.bucket, t.owner, t.path) then u
    else
      var v := AddOneMessage(u, t.bucket, t.owner, t.path);
      v.(store := Store(v.store.shortcuts + [NewShortcut(st, t)], v.store.raws + [NewRaw(t)]),
         cut := if 0 as char in t.content then v.cut + {t.mail} else v.cut)
  }

  function Apply(st: State, op: Op): State
  {
    match op
    case Deliver(t) => Delivered(st, t)
    case ReadOne(bucket, owner, path) =>
      if Restorable(st, bucket, owner, path) then ReadStatus(st, bucket, owner, path) else st
    case LoseUid(key) => st.(uids := st.uids - {key})
    case LoseStatus(key) => st.(statuses := st.statuses - {key})
    case DeleteMails(owner, mails) => st.(store := DeleteAll(st.store, owner, mails))
  }

  // ---------------------------------------------------------------- what may happen

  predicate SameStatusKey(a: Owner, b: Owner)
  {
    a.domain == b.domain && a.uuid.time == b.uuid.time
  }

  // The accounts: one bucket for each owner, and no two owners of a domain and a bucket
  // whose UUIDs carry the same time.
  predicate Directory(accounts: map<Owner, int>)
  {
    forall a, b :: a in accounts && b in accounts && SameStatusKey(a, b) && accounts[a] == accounts[b] ==> a == b
  }

  // Every row of that mail is in the owner's INBOX and in the bucket of the reference.
  predicate OnlyThere(s: seq<Shortcut>, owner: Owner, m: Reference)
  {
    forall row :: row in s && row.mail == m.mail ==> row.owner == owner && row.mailbox == INBOX && row.bucket == m.bucket
  }

  // A reference as a list of the INBOX has it.
  predicate Listed(st: State, owner: Owner, r: Reference)
  {
    && r.mail in st.used
    && OnlyThere(st.store.shortcuts, owner, r)
  }

  predicate Allowed(st: State, op: Op, accounts: map<Owner, int>)
  {
    match op
    case Deliver(t) => t.owner in accounts && accounts[t.owner] == t.bucket && t.mail !in st.used
    case ReadOne(bucket, owner, _) => owner in accounts && accounts[owner] == bucket
    case DeleteMails(owner, mails) => forall r :: r in mails ==> Listed(st, owner, r)
    case _ => true
  }

  predicate Possible(st: State, ops: seq<Op>, accounts: map<Owner, int>)
    decreases |ops|
  {
    ops == [] || (Allowed(st, ops[0], accounts) && Possible(Apply(st, ops[0]), ops[1..], accounts))
  }

  function Run(st: State, ops: seq<Op>): State
    decreases |ops|
  {
    if ops == [] then st else Run(Apply(st, ops[0]), ops[1..])
  }

  // ---------------------------------------------------------------- what happened in a run

  // The UIDs that were given to an owner's mails, in order.
  function GivenUids(st: State, ops: seq<Op>, owner: Owner): seq<int>
    decreases |ops|
  {
    if ops == [] then []
    else
      (if ops[0].Deliver? && ops[0].task.owner == owner then [NextUid(st, ops[0].task.bucket, owner)] else [])
      + GivenUids(Apply(st, ops[0]), ops[1..], owner)
  }

  // Is the highest UID given so far still to be found, in the cache or in the table?
  predicate Remembers(st: State, bucket: int, owner: Owner, highest: int)
  {
    || UidKey(bucket, owner) in st.uids
    || highest == 0
    || exists row :: row in st.store.shortcuts && row.owner == owner && row.uid == highest
  }

  // No delivery to the owner finds the counter lost while the mail with the highest UID
  // is deleted.
  predicate NeverForgets(st: State, ops: seq<Op>, owner: Owner, highest: int)
    decreases |ops|
  {
    if ops == [] then true
    else if ops[0].Deliver? && ops[0].task.owner == owner then
      var uid := NextUid(st, ops[0].task.bucket, owner);
      && Remembers(st, ops[0].task.bucket, owner, highest)
      && NeverForgets(Apply(st, ops[0]), ops[1..], owner, if uid > highest then uid else highest)
    else NeverForgets(Apply(st, ops[0]), ops[1..], owner, highest)
  }

  // The unseen rows of a mailbox that a deletion takes.
  function Doomed(rows: seq<Shortcut>, who: Owner, rs: seq<Reference>, owner: Owner, path: string): nat
  {
    if rows == [] then 0
    else
      (if rows[0].owner == owner && rows[0].mailbox == path && !rows[0].seen
          && exists r :: r in rs && Shortcuts(rows[0], who, r) then 1 else 0)
      + Doomed(rows[1..], who, rs, owner, path)
  }

  // What happened to a mailbox since its status was cached: unseen mails deleted, mails
  // delivered, and those of them that were delivered before the status was last read.
  datatype Since = Since(deleted: nat, delivered: nat, read: nat)

  function Later(st: State, op: Op, bucket: int, owner: Owner, path: string, since: Since): Since
  {
    var key := StatusKeyOf(bucket, owner, path);
    if key !in Apply(st, op).statuses then Since(0, 0, 0)
    else
      var s := if key in st.statuses then since else Since(0, 0, 0);
      match op
      case Deliver(t) =>
        if t.owner == owner && t.path == path then s.(delivered := s.delivered + 1) else s
      case ReadOne(_, o, p) => if o == owner && p == path then s.(read := s.delivered) else s
      case DeleteMails(who, rs) => s.(deleted := s.deleted + Doomed(st.store.shortcuts, who, rs, owner, path))
      case _ => s
  }

  function SinceCached(st: State, ops: seq<Op>, bucket: int, owner: Owner, path: string, since: Since): Since
    decreases |ops|
  {
    if ops == [] then since
    else SinceCached(Apply(st, ops[0]), ops[1..], bucket, owner, path, Later(st, ops[0], bucket, owner, path, since))
  }

  // ---------------------------------------------------------------- the invariant

  // A shortcut and the raw mail it stands for; the size is right exactly for mails without
  // a NUL.
  predicate Pair(row: Shortcut, raw: Raw, cut: set<Uuid>)
  {
    && row.bucket == raw.bucket && row.owner == raw.owner && row.mail == raw.mail
    && (row.octets == |raw.content| <==> row.mail !in cut)
  }

  // Row by row.
  predicate RowsPaired(s: seq<Shortcut>, r: seq<Raw>, cut: set<Uuid>)
    decreases |s|
  {
    if s == [] then r == [] else r != [] && Pair(s[0], r[0], cut) && RowsPaired(s[1..], r[1..], cut)
  }

  predicate Absent(s: seq<Shortcut>, mail: Uuid)
  {
    forall row :: row in s ==> row.mail != mail
  }

  predicate Distinct(s: seq<Shortcut>)
  {
    s == [] || (Absent(s[1..], s[0].mail) && Distinct(s[1..]))
  }

  // The tables correspond, and every mail is there once.
  predicate Paired(st: State)
  {
    && RowsPaired(st.store.shortcuts, st.store.raws, st.cut)
    && Distinct(st.store.shortcuts)
    && (forall row :: row in st.store.shortcuts ==> row.mail in st.used)
    && st.cut <= st.used
  }

  predicate UidsBound(st: State, accounts: map<Owner, int>)
  {
    forall key :: key in st.uids && key.owner in accounts && accounts[key.owner] == key.bucket ==>
      LargestUid(st.store.shortcuts, key.owner) <= st.uids[key]
  }

  // The UIDs of an owner's rows ascend in the order of the table.
  predicate Ascending(rows: seq<Shortcut>, owner: Owner)
  {
    rows == [] ||
    (&& (rows[0].owner == owner ==> forall row :: row in rows[1..] && row.owner == owner ==> rows[0].uid < row.uid)
     && Ascending(rows[1..], owner))
  }

  ghost predicate UidsInv(st: State, accounts: map<Owner, int>)
  {
    UidsBound(st, accounts) && forall owner :: owner in accounts ==> Ascending(st.store.shortcuts, owner)
  }

  // A history without a repetition: the UIDs count up from one, a cached counter stands at
  // the last one, and no row is above it.
  predicate Counted(st: State, bucket: int, owner: Owner, given: seq<int>)
  {
    && (forall i :: 0 <= i < |given| ==> given[i] == i + 1)
    && (UidKey(bucket, owner) in st.uids ==> st.uids[UidKey(bucket, owner)] == |given|)
    && (forall row :: row in st.store.shortcuts && row.owner == owner ==> row.uid <= |given|)
  }

  // A cached status against the table and the mailbox row.
  predicate Tracked(st: State, bucket: int, owner: Owner, path: string, since: Since)
  {
    var key, box := StatusKeyOf(bucket, owner, path), MailboxKey(bucket, owner, path);
    key in st.statuses ==>
      && box in st.mailboxes
      && st.statuses[key] ==
         Status(st.mailboxes[box].flags, CountUnseen(st.store.shortcuts, owner, path) + since.deleted,
                st.mailboxes[box].count + since.delivered, 0, since.delivered)
      && since.read <= since.delivered
  }

  // ---------------------------------------------------------------- proofs

  lemma {:induction false} LargestIsBound(rows: seq<Shortcut>, owner: Owner)
    ensures LargestUid(rows, owner) >= 0
    ensures forall row :: row in rows && row.owner == owner ==> row.uid <= LargestUid(rows, owner)
    ensures LargestUid(rows, owner) == 0
            || exists row :: row in rows && row.owner == owner && row.uid == LargestUid(rows, owner)
  {
    if rows != [] {
      assert rows == [rows[0]] + rows[1..];
      LargestIsBound(rows[1..], owner);
      var rest := LargestUid(rows[1..], owner);
      if !(rows[0].owner == owner && rows[0].uid > rest) && rest != 0 {
        var row :| row in rows[1..] && row.owner == owner && row.uid == rest;
        assert row in rows;
      }
    }
  }

  lemma {:induction false} RowAppended(rows: seq<Shortcut>, row: Shortcut, owner: Owner, path: string)
    ensures LargestUid(rows + [row], owner) ==
            if row.owner == owner && row.uid > LargestUid(rows, owner) then row.uid else LargestUid(rows, owner)
    ensures CountUnseen(rows + [row], owner, path) ==
            CountUnseen(rows, owner, path) + (if row.owner == owner && row.mailbox == path && !row.seen then 1 else 0)
  {
    if rows == [] {
      assert rows + [row] == [row] && [row][1..] == [];
    } else {
      assert (rows + [row])[1..] == rows[1..] + [row];
      RowAppended(rows[1..], row, owner, path);
    }
  }

  lemma {:induction false} DeletingLowers(rows: seq<Shortcut>, who: Owner, r: Reference, owner: Owner)
    ensures LargestUid(DeleteShortcut(rows, who, r), owner) <= LargestUid(rows, owner)
  {
    if rows != [] {
      DeletingLowers(rows[1..], who, r, owner);
      var rest := DeleteShortcut(rows[1..], who, r);
      assert ([rows[0]] + rest)[1..] == rest;
    }
  }

  lemma {:induction false} DeletingAllLowers(s: Store, who: Owner, rs: seq<Reference>, owner: Owner)
    ensures LargestUid(DeleteAll(s, who, rs).shortcuts, owner) <= LargestUid(s.shortcuts, owner)
    decreases |rs|
  {
    if rs != [] {
      DeletingLowers(s.shortcuts, who, rs[0], owner);
      DeletingAllLowers(DeleteMail(s, who, rs[0]), who, rs[1..], owner);
    }
  }

  // Deleting a listed mail takes the same rows from both tables.
  lemma {:induction false} DeletingPairs(s: seq<Shortcut>, r: seq<Raw>, cut: set<Uuid>, owner: Owner, m: Reference)
    requires RowsPaired(s, r, cut) && OnlyThere(s, owner, m)
    ensures RowsPaired(DeleteShortcut(s, owner, m), DeleteRaw(r, owner, m), cut)
    decreases |s|
  {
    if s != [] {
      assert s[0] in s && forall row :: row in s[1..] ==> row in s;
      DeletingPairs(s[1..], r[1..], cut, owner, m);
      var left, raws := DeleteShortcut(s[1..], owner, m), DeleteRaw(r[1..], owner, m);
      assert ([s[0]] + left)[1..] == left && ([r[0]] + raws)[1..] == raws;
    }
  }

  lemma {:induction false} DeletingKeepsDistinct(s: seq<Shortcut>, owner: Owner, m: Reference)
    requires Distinct(s)
    ensures Distinct(DeleteShortcut(s, owner, m))
  {
    if s != [] {
      DeletingKeepsDistinct(s[1..], owner, m);
      var left := DeleteShortcut(s[1..], owner, m);
      assert ([s[0]] + left)[1..] == left;
    }
  }

  lemma {:induction false} AppendingPairs(s: seq<Shortcut>, r: seq<Raw>, cut: set<Uuid>, row: Shortcut, raw: Raw)
    requires RowsPaired(s, r, cut) && Pair(row, raw, cut)
    ensures RowsPaired(s + [row], r + [raw], cut)
    decreases |s|
  {
    if s == [] {
      assert s + [row] == [row] && r + [raw] == [raw] && [row][1..] == [] && [raw][1..] == [];
    } else {
      assert (s + [row])[1..] == s[1..] + [row] && (r + [raw])[1..] == r[1..] + [raw];
      AppendingPairs(s[1..], r[1..], cut, row, raw);
    }
  }

  lemma {:induction false} AppendingKeepsDistinct(s: seq<Shortcut>, row: Shortcut)
    requires Distinct(s) && Absent(s, row.mail)
    ensures Distinct(s + [row])
  {
    if s == [] {
      assert s + [row] == [row] && [row][1..] == [];
    } else {
      assert (s + [row])[1..] == s[1..] + [row];
      assert s[0] in s && forall x :: x in s[1..] ==> x in s;
      AppendingKeepsDistinct(s[1..], row);
    }
  }

  // A mail that is not stored yet may be counted as cut or not.
  lemma {:induction false} CutElsewhere(s: seq<Shortcut>, r: seq<Raw>, cut: set<Uuid>, mail: Uuid)
    requires RowsPaired(s, r, cut) && Absent(s, mail)
    ensures RowsPaired(s, r, cut + {mail})
    decreases |s|
  {
    if s != [] {
      assert s[0] in s && forall x :: x in s[1..] ==> x in s;
      CutElsewhere(s[1..], r[1..], cut, mail);
    }
  }

  // The rows of the two tables, position by position.
  lemma {:induction false} PairedByIndex(s: seq<Shortcut>, r: seq<Raw>, cut: set<Uuid>)
    requires RowsPaired(s, r, cut) && Distinct(s)
    ensures |s| == |r| && forall i :: 0 <= i < |s| ==> Pair(s[i], r[i], cut)
    ensures forall i, j :: 0 <= i < j < |s| ==> s[i].mail != s[j].mail
    decreases |s|
  {
    if s != [] {
      PairedByIndex(s[1..], r[1..], cut);
      assert forall i :: 0 < i < |s| ==> s[i] == s[1..][i - 1] && r[i] == r[1..][i - 1];
      assert forall j :: 0 < j < |s| ==> s[j] in s[1..];
    }
  }

  lemma {:induction false} DeletingKeepsPaired(st: State, owner: Owner, ms: seq<Reference>)
    requires Paired(st) && forall m :: m in ms ==> Listed(st, owner, m)
    ensures Paired(st.(store := DeleteAll(st.store, owner, ms)))
    decreases |ms|
  {
    if ms != [] {
      assert Listed(st, owner, ms[0]);
      DeletingPairs(st.store.shortcuts, st.store.raws, st.cut, owner, ms[0]);
      DeletingKeepsDistinct(st.store.shortcuts, owner, ms[0]);
      var next := st.(store := DeleteMail(st.store, owner, ms[0]));
      assert Paired(next);
      forall m | m in ms[1..] ensures Listed(next, owner, m) {
        assert m in ms && Listed(st, owner, m);
      }
      DeletingKeepsPaired(next, owner, ms[1..]);
    } else {
      assert st.(store := st.store) == st;
    }
  }

  lemma DeliveryKeepsPaired(st: State, t: Task)
    requires Paired(st) && t.mail !in st.used
    ensures Paired(Delivered(st, t))
  {
    hide LargestUid, CountUnseen, RowsPaired, Distinct;
    if Restorable(CountUid(st, t), t.bucket, t.owner, t.path) {
      var s, r, row, raw := st.store.shortcuts, st.store.raws, NewShortcut(st, t), NewRaw(t);
      assert Absent(s, t.mail);
      CutElsewhere(s, r, st.cut, t.mail);
      var cut := if 0 as char in t.content then st.cut + {t.mail} else st.cut;
      AppendingPairs(s, r, cut, row, raw);
      AppendingKeepsDistinct(s, row);
    }
  }

  lemma {:induction false} RunKeepsPaired(st: State, ops: seq<Op>, accounts: map<Owner, int>)
    requires Paired(st) && Possible(st, ops, accounts)
    ensures Paired(Run(st, ops))
    decreases |ops|
  {
    hide Paired, Delivered, Restorable, ReadStatus;
    if ops != [] {
      match ops[0] {
        case Deliver(t) => DeliveryKeepsPaired(st, t);
        case DeleteMails(owner, ms) => DeletingKeepsPaired(st, owner, ms);
        case _ => CacheKeepsPaired(st, ops[0]);
      }
      RunKeepsPaired(Apply(st, ops[0]), ops[1..], accounts);
    }
  }

  lemma CacheKeepsPaired(st: State, op: Op)
    requires Paired(st) && (op.ReadOne? || op.LoseUid? || op.LoseStatus?)
    ensures Paired(Apply(st, op)) && Apply(st, op).store == st.store && Apply(st, op).used == st.used
  {
    hide RowsPaired, Distinct;
  }

  lemma {:induction false} AppendingAscends(rows: seq<Shortcut>, row: Shortcut, owner: Owner)
    requires Ascending(rows, owner)
    requires row.owner == owner ==> forall x :: x in rows && x.owner == owner ==> x.uid < row.uid
    ensures Ascending(rows + [row], owner)
  {
    if rows == [] {
      assert rows + [row] == [row] && [row][1..] == [];
    } else {
      assert (rows + [row])[1..] == rows[1..] + [row];
      assert rows[0] in rows && forall x :: x in rows[1..] ==> x in rows;
      AppendingAscends(rows[1..], row, owner);
    }
  }

  lemma {:induction false} DeletingAscends(rows: seq<Shortcut>, who: Owner, r: Reference, owner: Owner)
    requires Ascending(rows, owner)
    ensures Ascending(DeleteShortcut(rows, who, r), owner)
  {
    if rows != [] {
      DeletingAscends(rows[1..], who, r, owner);
      var left := DeleteShortcut(rows[1..], who, r);
      assert ([rows[0]] + left)[1..] == left;
    }
  }

  lemma {:induction false} DeletingAllAscends(s: Store, who: Owner, rs: seq<Reference>, owner: Owner)
    requires Ascending(s.shortcuts, owner)
    ensures Ascending(DeleteAll(s, who, rs).shortcuts, owner)
    decreases |rs|
  {
    if rs != [] {
      DeletingAscends(s.shortcuts, who, rs[0], owner);
      DeletingAllAscends(DeleteMail(s, who, rs[0]), who, rs[1..], owner);
    }
  }

  lemma {:induction false} AscendingByIndex(rows: seq<Shortcut>, owner: Owner)
    requires Ascending(rows, owner)
    ensures forall i, j :: 0 <= i < j < |rows| && rows[i].owner == owner && rows[j].owner == owner ==> rows[i].uid < rows[j].uid
  {
    if rows != [] {
      AscendingByIndex(rows[1..], owner);
      assert forall i :: 0 < i < |rows| ==> rows[i] == rows[1..][i - 1] && rows[i] in rows[1..];
    }
  }

  lemma DeliveryKeepsUids(st: State, t: Task, accounts: map<Owner, int>)
    requires UidsInv(st, accounts) && Allowed(st, Deliver(t), accounts)
    ensures UidsInv(Delivered(st, t), accounts)
  {
    hide LargestUid, CountUnseen, CString, Ascending;
    var after := Delivered(st, t);
    forall key | key in after.uids && key.owner in accounts && accounts[key.owner] == key.bucket
      ensures LargestUid(after.store.shortcuts, key.owner) <= after.uids[key]
    {
      RowAppended(st.store.shortcuts, NewShortcut(st, t), key.owner, t.path);
    }
    LargestIsBound(st.store.shortcuts, t.owner);
    forall owner | owner in accounts ensures Ascending(after.store.shortcuts, owner) {
      AppendingAscends(st.store.shortcuts, NewShortcut(st, t), owner);
    }
  }

  lemma {:induction false} RunKeepsUids(st: State, ops: seq<Op>, accounts: map<Owner, int>)
    requires UidsInv(st, accounts) && Possible(st, ops, accounts)
    ensures UidsInv(Run(st, ops), accounts)
    decreases |ops|
  {
    hide Delivered, Restorable, LargestUid, DeleteAll, ReadStatus, Ascending;
    if ops != [] {
      match ops[0] {
        case Deliver(t) => DeliveryKeepsUids(st, t, accounts);
        case DeleteMails(owner, ms) =>
          forall o | o in accounts
            ensures LargestUid(DeleteAll(st.store, owner, ms).shortcuts, o) <= LargestUid(st.store.shortcuts, o)
            ensures Ascending(DeleteAll(st.store, owner, ms).shortcuts, o)
          {
            DeletingAllLowers(st.store, owner, ms, o);
            DeletingAllAscends(st.store, owner, ms, o);
          }
        case ReadOne(bucket, owner, path) => ReadingIsHarmless(st, bucket, owner, path);
        case _ =>
      }
      RunKeepsUids(Apply(st, ops[0]), ops[1..], accounts);
    }
  }

  lemma ReadingIsHarmless(st: State, bucket: int, owner: Owner, path: string)
    ensures var u := Apply(st, ReadOne(bucket, owner, path)); u == st.(statuses := u.statuses)
  {
  }

  // With a history that counts up, the next UID is a new one exactly if the counter's
  // height is remembered.
  lemma NextIsNew(st: State, bucket: int, owner: Owner, given: seq<int>)
    requires Counted(st, bucket, owner, given)
    ensures Remembers(st, bucket, owner, |given|) <==> NextUid(st, bucket, owner) !in given
    ensures Remembers(st, bucket, owner, |given|) ==> NextUid(st, bucket, owner) == |given| + 1
  {
    hide LargestUid;
    LargestIsBound(st.store.shortcuts, owner);
    var uid := NextUid(st, bucket, owner);
    if !Remembers(st, bucket, owner, |given|) {
      assert given[uid - 1] == uid;
    }
  }

  lemma CountingOn(st: State, op: Op, accounts: map<Owner, int>, owner: Owner, given: seq<int>)
    requires owner in accounts && Allowed(st, op, accounts) && Counted(st, accounts[owner], owner, given)
    requires op.Deliver? && op.task.owner == owner ==> Remembers(st, accounts[owner], owner, |given|)
    ensures Counted(Apply(st, op), accounts[owner], owner,
                    if op.Deliver? && op.task.owner == owner then given + [NextUid(st, accounts[owner], owner)] else given)
  {
    hide LargestUid, CountUnseen, CString, ReadStatus, DeleteAll, Restorable;
    match op {
      case Deliver(t) => NextIsNew(st, accounts[owner], owner, given);
      case ReadOne(bucket, o, path) => ReadingIsHarmless(st, bucket, o, path);
      case DeleteMails(who, rs) =>
        forall row | row in DeleteAll(st.store, who, rs).shortcuts ensures row in st.store.shortcuts {
          DeletingAdds(st.store, who, rs, row);
        }
      case _ =>
    }
  }

  lemma DeletingAdds(s: Store, who: Owner, rs: seq<Reference>, row: Shortcut)
    requires row in DeleteAll(s, who, rs).shortcuts
    ensures row in s.shortcuts
  {
    DeleteAllIs(s, who, rs);
    OtherShortcutsHas(s.shortcuts, who, rs, row);
  }

  predicate NoTwice(uids: seq<int>)
  {
    forall i, j :: 0 <= i < j < |uids| ==> uids[i] != uids[j]
  }

  lemma {:induction false} CountingOver(st: State, ops: seq<Op>, accounts: map<Owner, int>, owner: Owner, given: seq<int>)
    requires owner in accounts && Possible(st, ops, accounts) && Counted(st, accounts[owner], owner, given)
    ensures var all := given + GivenUids(st, ops, owner);
            && (NeverForgets(st, ops, owner, |given|) <==> NoTwice(all))
            && (NeverForgets(st, ops, owner, |given|) ==> Counted(Run(st, ops), accounts[owner], owner, all))
    decreases |ops|
  {
    hide Apply, Remembers, Counted, NextUid, NoTwice;
    if ops == [] {
      assert given + [] == given;
      CountedIsFresh(st, accounts[owner], owner, given);
    } else if ops[0].Deliver? && ops[0].task.owner == owner {
      var uid, rest := NextUid(st, accounts[owner], owner), GivenUids(Apply(st, ops[0]), ops[1..], owner);
      NextIsNew(st, accounts[owner], owner, given);
      assert given + ([uid] + rest) == (given + [uid]) + rest;
      if Remembers(st, accounts[owner], owner, |given|) {
        CountingOn(st, ops[0], accounts, owner, given);
        CountingOver(Apply(st, ops[0]), ops[1..], accounts, owner, given + [uid]);
      } else {
        RepeatedStays(given, uid, rest);
      }
    } else {
      var rest := GivenUids(Apply(st, ops[0]), ops[1..], owner);
      assert [] + rest == rest;
      CountingOn(st, ops[0], accounts, owner, given);
      CountingOver(Apply(st, ops[0]), ops[1..], accounts, owner, given);
    }
  }

  lemma CountedIsFresh(st: State, bucket: int, owner: Owner, given: seq<int>)
    requires Counted(st, bucket, owner, given)
    ensures NoTwice(given)
  {
  }

  lemma RepeatedStays(given: seq<int>, uid: int, rest: seq<int>)
    requires uid in given
    ensures !NoTwice(given + [uid] + rest)
  {
    var i :| 0 <= i < |given| && given[i] == uid;
    var all := given + [uid] + rest;
    assert all[i] == uid && all[|given|] == uid;
  }

  lemma {:induction false} DoomedCounts(rows: seq<Shortcut>, who: Owner, rs: seq<Reference>, owner: Owner, path: string)
    ensures CountUnseen(rows, owner, path) ==
            CountUnseen(OtherShortcuts(rows, who, rs), owner, path) + Doomed(rows, who, rs, owner, path)
  {
    if rows != [] {
      DoomedCounts(rows[1..], who, rs, owner, path);
      var rest := OtherShortcuts(rows[1..], who, rs);
      assert ([rows[0]] + rest)[1..] == rest && [] + rest == rest;
    }
  }

  lemma DeliveryTracked(st: State, t: Task, accounts: map<Owner, int>, owner: Owner, path: string, since: Since)
    requires owner in accounts && Directory(accounts) && Allowed(st, Deliver(t), accounts)
    requires Tracked(st, accounts[owner], owner, path, since)
    ensures Tracked(Delivered(st, t), accounts[owner], owner, path,
                    Later(st, Deliver(t), accounts[owner], owner, path, since))
  {
    hide LargestUid, CountUnseen, CString;
    if Restorable(CountUid(st, t), t.bucket, t.owner, t.path) {
      RowAppended(st.store.shortcuts, NewShortcut(st, t), owner, path);
      if StatusKeyOf(accounts[owner], owner, path) == StatusKeyOf(t.bucket, t.owner, t.path) {
        assert SameStatusKey(owner, t.owner);
      }
    }
  }

  lemma ReadingTracked(st: State, op: Op, accounts: map<Owner, int>, owner: Owner, path: string, since: Since)
    requires owner in accounts && Directory(accounts) && Allowed(st, op, accounts) && op.ReadOne?
    requires Tracked(st, accounts[owner], owner, path, since)
    ensures Tracked(Apply(st, op), accounts[owner], owner, path, Later(st, op, accounts[owner], owner, path, since))
  {
    hide CountUnseen;
    if StatusKeyOf(accounts[owner], owner, path) == StatusKeyOf(op.bucket, op.owner, op.path) {
      assert SameStatusKey(owner, op.owner);
    }
  }

  lemma OtherTracked(st: State, op: Op, bucket: int, owner: Owner, path: string, since: Since)
    requires op.LoseUid? || op.LoseStatus? || op.DeleteMails?
    requires Tracked(st, bucket, owner, path, since)
    ensures Tracked(Apply(st, op), bucket, owner, path, Later(st, op, bucket, owner, path, since))
  {
    hide CountUnseen, Doomed, DeleteAll;
    if op.DeleteMails? {
      DeleteAllIs(st.store, op.owner, op.mails);
      DoomedCounts(st.store.shortcuts, op.owner, op.mails, owner, path);
    }
  }

  lemma {:induction false} RunTracked(st: State, ops: seq<Op>, accounts: map<Owner, int>, owner: Owner, path: string, since: Since)
    requires owner in accounts && Directory(accounts) && Possible(st, ops, accounts)
    requires Tracked(st, accounts[owner], owner, path, since)
    ensures Tracked(Run(st, ops), accounts[owner], owner, path,
                    SinceCached(st, ops, accounts[owner], owner, path, since))
    ensures Run(st, ops).mailboxes == st.mailboxes
    decreases |ops|
  {
    hide Delivered, Later, Tracked, Restorable, ReadStatus, Directory;
    if ops != [] {
      match ops[0] {
        case Deliver(t) => DeliveryTracked(st, t, accounts, owner, path, since);
        case ReadOne(_, _, _) => ReadingTracked(st, ops[0], accounts, owner, path, since);
        case _ => OtherTracked(st, ops[0], accounts[owner], owner, path, since);
      }
      SameMailboxes(st, ops[0]);
      RunTracked(Apply(st, ops[0]), ops[1..], accounts, owner, path, Later(st, ops[0], accounts[owner], owner, path, since));
    }
  }

  lemma SameMailboxes(st: State, op: Op)
    ensures Apply(st, op).mailboxes == st.mailboxes
  {
    hide LargestUid, CountUnseen, CString;
  }

  lemma {:induction false} NothingDoomed(rows: seq<Shortcut>, who: Owner, rs: seq<Reference>, owner: Owner, path: string)
    requires path != INBOX
    ensures Doomed(rows, who, rs, owner, path) == 0
  {
    if rows != [] {
      NothingDoomed(rows[1..], who, rs, owner, path);
    }
  }

  // Only a POP3 deletion, and only in the INBOX, makes the count of deleted mails grow.
  lemma {:induction false} NothingDeleted(st: State, ops: seq<Op>, bucket: int, owner: Owner, path: string, since: Since)
    requires since.deleted == 0
    requires path == INBOX ==> forall k :: 0 <= k < |ops| ==> !ops[k].DeleteMails?
    ensures SinceCached(st, ops, bucket, owner, path, since).deleted == 0
    decreases |ops|
  {
    hide Apply, Doomed;
    if ops != [] {
      if ops[0].DeleteMails? {
        NothingDoomed(st.store.shortcuts, ops[0].owner, ops[0].mails, owner, path);
      }
      NothingDeleted(Apply(st, ops[0]), ops[1..], bucket, owner, path, Later(st, ops[0], bucket, owner, path, since));
    }
  }

  // ---------------------------------------------------------------- theorems

  const EMPTY := State(Store([], []), map[], map[], map[], {}, {})

  // Over every run of deliveries, status reads, losses of cached keys and POP3 deletions:
  // a cached counter covers every stored UID of its owner, so that the next mail gets a
  // UID above all of them, and the UIDs of the owner's rows ascend in the order of the
  // table (section 2.3.1.1 of RFC 3501).
  lemma UidsAscend(mailboxes: map<MailboxKey, MailboxRow>, ops: seq<Op>, accounts: map<Owner, int>, owner: Owner)
    requires Possible(EMPTY.(mailboxes := mailboxes), ops, accounts) && owner in accounts
    ensures var st := Run(EMPTY.(mailboxes := mailboxes), ops);
            var rows := st.store.shortcuts;
            && (UidKey(accounts[owner], owner) in st.uids ==>
                  LargestUid(rows, owner) <= st.uids[UidKey(accounts[owner], owner)])
            && (forall row :: row in rows && row.owner == owner ==> row.uid < NextUid(st, accounts[owner], owner))
            && forall i, j :: 0 <= i < j < |rows| && rows[i].owner == owner && rows[j].owner == owner ==>
                 rows[i].uid < rows[j].uid
  {
    hide LargestUid, Run, Possible, Ascending;
    NothingAscends(EMPTY.(mailboxes := mailboxes), accounts);
    RunKeepsUids(EMPTY.(mailboxes := mailboxes), ops, accounts);
    LargestIsBound(Run(EMPTY.(mailboxes := mailboxes), ops).store.shortcuts, owner);
    AscendingByIndex(Run(EMPTY.(mailboxes := mailboxes), ops).store.shortcuts, owner);
  }

  lemma NothingAscends(st: State, accounts: map<Owner, int>)
    requires st.store.shortcuts == [] && st.uids == map[]
    ensures UidsInv(st, accounts)
  {
  }

  // What was ever given: an owner gets no UID twice, deleted mails included, exactly if no
  // delivery finds the counter lost while the mail with the highest UID is deleted. The
  // UIDs then count up from one.
  lemma UidsNeverRepeat(mailboxes: map<MailboxKey, MailboxRow>, ops: seq<Op>, accounts: map<Owner, int>, owner: Owner)
    requires Possible(EMPTY.(mailboxes := mailboxes), ops, accounts) && owner in accounts
    ensures var first := EMPTY.(mailboxes := mailboxes);
            var given := GivenUids(first, ops, owner);
            && (NeverForgets(first, ops, owner, 0) <==> forall i, j :: 0 <= i < j < |given| ==> given[i] != given[j])
            && (NeverForgets(first, ops, owner, 0) ==> forall i :: 0 <= i < |given| ==> given[i] == i + 1)
  {
    hide GivenUids, NeverForgets, Run, Possible;
    var first := EMPTY.(mailboxes := mailboxes);
    CountingOver(first, ops, accounts, owner, []);
    assert [] + GivenUids(first, ops, owner) == GivenUids(first, ops, owner);
  }

  // Behind such a run, the next UID is above every one that was given exactly if the
  // counter is cached or the mail with the highest UID is still stored.
  lemma NextUidIsFresh(mailboxes: map<MailboxKey, MailboxRow>, ops: seq<Op>, accounts: map<Owner, int>, owner: Owner)
    requires Possible(EMPTY.(mailboxes := mailboxes), ops, accounts) && owner in accounts
    requires NeverForgets(EMPTY.(mailboxes := mailboxes), ops, owner, 0)
    ensures var first := EMPTY.(mailboxes := mailboxes);
            var given, st := GivenUids(first, ops, owner), Run(first, ops);
            && (Remembers(st, accounts[owner], owner, |given|)
                <==> forall i :: 0 <= i < |given| ==> given[i] < NextUid(st, accounts[owner], owner))
            && (!Remembers(st, accounts[owner], owner, |given|) ==> NextUid(st, accounts[owner], owner) in given)
  {
    hide GivenUids, NeverForgets, Run, Possible, NextUid, Remembers;
    var first := EMPTY.(mailboxes := mailboxes);
    CountingOver(first, ops, accounts, owner, []);
    var given := GivenUids(first, ops, owner);
    assert [] + given == given;
    NextIsNew(Run(first, ops), accounts[owner], owner, given);
  }

  // Over the same runs the two tables stay in bijection by (bucket, owner, mail), with the
  // size in the shortcut the length of the stored text exactly for mails without a NUL.
  lemma TablesCorrespond(mailboxes: map<MailboxKey, MailboxRow>, ops: seq<Op>, accounts: map<Owner, int>)
    requires Possible(EMPTY.(mailboxes := mailboxes), ops, accounts)
    ensures var st := Run(EMPTY.(mailboxes := mailboxes), ops);
            var s, r := st.store.shortcuts, st.store.raws;
            && ShortcutKeys(s) == RawKeys(r)
            && (forall i, j :: 0 <= i < j < |s| ==> s[i].mail != s[j].mail)
            && |s| == |r| && forall i :: 0 <= i < |s| ==> (s[i].octets == |r[i].content| <==> s[i].mail !in st.cut)
  {
    hide Run, Possible, RowsPaired, Distinct;
    var first := EMPTY.(mailboxes := mailboxes);
    assert Paired(first) by {
      NothingPaired(first);
    }
    RunKeepsPaired(first, ops, accounts);
    var st := Run(first, ops);
    PairedByIndex(st.store.shortcuts, st.store.raws, st.cut);
  }

  lemma NothingPaired(st: State)
    requires st.store == Store([], []) && st.used == {} && st.cut == {}
    ensures Paired(st)
  {
  }

  // A cached status, over every run: the unseen count is too high by the unseen mails that
  // were deleted over POP3 since it was cached, the total is what the mailbox row says and
  // the deliveries since then, and the recent count is those deliveries.
  lemma StatusOverRuns(mailboxes: map<MailboxKey, MailboxRow>, ops: seq<Op>, accounts: map<Owner, int>, owner: Owner, path: string)
    requires Possible(EMPTY.(mailboxes := mailboxes), ops, accounts) && Directory(accounts) && owner in accounts
    ensures var first := EMPTY.(mailboxes := mailboxes);
            var st := Run(first, ops);
            var key, box := StatusKeyOf(accounts[owner], owner, path), MailboxKey(accounts[owner], owner, path);
            var since := SinceCached(first, ops, accounts[owner], owner, path, Since(0, 0, 0));
            key in st.statuses ==>
              && box in mailboxes
              && st.statuses[key] ==
                 Status(mailboxes[box].flags, CountUnseen(st.store.shortcuts, owner, path) + since.deleted,
                        mailboxes[box].count + since.delivered, 0, since.delivered)
  {
    hide CountUnseen, Run, Possible, Directory, SinceCached;
    RunTracked(EMPTY.(mailboxes := mailboxes), ops, accounts, owner, path, Since(0, 0, 0));
  }

  // A cached unseen count is the recount exactly if no unseen mail of the mailbox was
  // deleted since it was cached.
  lemma DeletionLeavesTheCount(mailboxes: map<MailboxKey, MailboxRow>, ops: seq<Op>, accounts: map<Owner, int>, owner: Owner, path: string)
    requires Possible(EMPTY.(mailboxes := mailboxes), ops, accounts) && Directory(accounts) && owner in accounts
    ensures var first := EMPTY.(mailboxes := mailboxes);
            var st, key := Run(first, ops), StatusKeyOf(accounts[owner], owner, path);
            var deleted := SinceCached(first, ops, accounts[owner], owner, path, Since(0, 0, 0)).deleted;
            key in st.statuses ==>
              && st.statuses[key].unseen - CountUnseen(st.store.shortcuts, owner, path) == deleted
              && (st.statuses[key].unseen == CountUnseen(st.store.shortcuts, owner, path) <==> deleted == 0)
  {
    hide CountUnseen, Run, Possible, Directory, SinceCached;
    StatusOverRuns(mailboxes, ops, accounts, owner, path);
  }

  // Without POP3 deletions, and in every mailbox but the INBOX with them, a cached unseen
  // count is the number of stored shortcuts of that mailbox that are not seen.
  lemma UnseenCountAgrees(mailboxes: map<MailboxKey, MailboxRow>, ops: seq<Op>, accounts: map<Owner, int>, owner: Owner, path: string)
    requires Possible(EMPTY.(mailboxes := mailboxes), ops, accounts) && Directory(accounts) && owner in accounts
    requires path == INBOX ==> forall k :: 0 <= k < |ops| ==> !ops[k].DeleteMails?
    ensures var st := Run(EMPTY.(mailboxes := mailboxes), ops);
            var key := StatusKeyOf(accounts[owner], owner, path);
            key in st.statuses ==> st.statuses[key].unseen == CountUnseen(st.store.shortcuts, owner, path)
  {
    hide CountUnseen, Run, Possible, Directory, SinceCached;
    DeletionLeavesTheCount(mailboxes, ops, accounts, owner, path);
    NothingDeleted(EMPTY.(mailboxes := mailboxes), ops, accounts[owner], owner, path, Since(0, 0, 0));
  }

  // The total is only ever counted in the cache: losing the cached status changes it
  // exactly if a mail was delivered to the mailbox since it was cached.
  lemma TotalIsForgotten(mailboxes: map<MailboxKey, MailboxRow>, ops: seq<Op>, accounts: map<Owner, int>, owner: Owner, path: string)
    requires Possible(EMPTY.(mailboxes := mailboxes), ops, accounts) && Directory(accounts) && owner in accounts
    ensures var first := EMPTY.(mailboxes := mailboxes);
            var st, key := Run(first, ops), StatusKeyOf(accounts[owner], owner, path);
            var lost := Apply(st, LoseStatus(key));
            var delivered := SinceCached(first, ops, accounts[owner], owner, path, Since(0, 0, 0)).delivered;
            key in st.statuses ==>
              && Restorable(lost, accounts[owner], owner, path)
              && CurrentStatus(st, accounts[owner], owner, path).total ==
                 CurrentStatus(lost, accounts[owner], owner, path).total + delivered
              && (CurrentStatus(lost, accounts[owner], owner, path).total == CurrentStatus(st, accounts[owner], owner, path).total
                  <==> delivered == 0)
  {
    hide CountUnseen, Run, Possible, Directory, SinceCached;
    StatusOverRuns(mailboxes, ops, accounts, owner, path);
    RunTracked(EMPTY.(mailboxes := mailboxes), ops, accounts, owner, path, Since(0, 0, 0));
  }

  // Reading never lowers the recent count: it is the number of deliveries since the last
  // read exactly if nothing was delivered to the mailbox between its caching and that read.
  lemma RecentIsNotCleared(mailboxes: map<MailboxKey, MailboxRow>, ops: seq<Op>, accounts: map<Owner, int>, owner: Owner, path: string)
    requires Possible(EMPTY.(mailboxes := mailboxes), ops, accounts) && Directory(accounts) && owner in accounts
    ensures var first := EMPTY.(mailboxes := mailboxes);
            var st, key := Run(first, ops), StatusKeyOf(accounts[owner], owner, path);
            var since := SinceCached(first, ops, accounts[owner], owner, path, Since(0, 0, 0));
            key in st.statuses ==>
              && st.statuses[key].recent == since.delivered
              && since.read <= since.delivered
              && (st.statuses[key].recent == since.delivered - since.read <==> since.read == 0)
  {
    hide CountUnseen, Run, Possible, Directory, SinceCached;
    RunTracked(EMPTY.(mailboxes := mailboxes), ops, accounts, owner, path, Since(0, 0, 0));
  }

  // ---------------------------------------------------------------- two runs

  // A mail is delivered and the status read: one mail is recent still, and two are with the
  // next one, although only one was delivered since the read.
  lemma ReadMailStaysRecent(mailboxes: map<MailboxKey, MailboxRow>, accounts: map<Owner, int>, one: Task, two: Task)
    requires one.owner == two.owner && one.owner in accounts && one.path == two.path
    requires one.bucket == two.bucket == accounts[one.owner] && one.mail != two.mail
    requires MailboxKey(one.bucket, one.owner, one.path) in mailboxes
    ensures var first, read := EMPTY.(mailboxes := mailboxes), ReadOne(one.bucket, one.owner, one.path);
            var key := StatusKeyOf(one.bucket, one.owner, one.path);
            var before, after := Run(first, [Deliver(one), read]), Run(first, [Deliver(one), read, Deliver(two)]);
            && Possible(first, [Deliver(one), read, Deliver(two)], accounts)
            && key in before.statuses && before.statuses[key].recent == 1
            && key in after.statuses && after.statuses[key].recent == 2
  {
    hide CountUnseen, CString, LargestUid, Run, Possible, GivenUids;
    var owner, first, read := one.owner, EMPTY.(mailboxes := mailboxes), ReadOne(one.bucket, one.owner, one.path);
    var a := Delivered(first, one);
    var b := Apply(a, read);
    var last := [Deliver(two)];
    assert ([read] + last)[1..] == last && ([Deliver(one)] + ([read] + last))[1..] == [read] + last && last[1..] == [];
    NoSteps(b, accounts, owner);
    NoSteps(Delivered(b, two), accounts, owner);
    FirstStep(b, last, accounts, owner);
    FirstStep(a, [read] + last, accounts, owner);
    FirstStep(first, [Deliver(one)] + ([read] + last), accounts, owner);
    assert [Deliver(one)] + ([read] + last) == [Deliver(one), read, Deliver(two)];
    assert [read][1..] == [] && [Deliver(one), read][1..] == [read];
    FirstStep(a, [read], accounts, owner);
    FirstStep(first, [Deliver(one), read], accounts, owner);
  }

  lemma OneDeleted(s: Store, owner: Owner, r: Reference)
    ensures DeleteAll(s, owner, [r]) == DeleteMail(s, owner, r)
  {
    assert [r][1..] == [];
  }

  // The first mail ever is delivered, fetched and deleted over POP3, and the cache is lost:
  // the second mail has the UID of the first.
  lemma UidIsReused(mailboxes: map<MailboxKey, MailboxRow>, accounts: map<Owner, int>, one: Task, two: Task)
    requires one.owner == two.owner && one.owner in accounts
    requires one.bucket == two.bucket == accounts[one.owner] && one.mail != two.mail && one.path == two.path == INBOX
    requires MailboxKey(one.bucket, one.owner, INBOX) in mailboxes
    ensures var first := EMPTY.(mailboxes := mailboxes);
            var ops := [Deliver(one), DeleteMails(one.owner, [Reference(one.mail, |one.content|, one.mailBucket)]),
                        LoseUid(UidKey(one.bucket, one.owner)), Deliver(two)];
            && Possible(first, ops, accounts)
            && GivenUids(first, ops, one.owner) == [1, 1]
            && Run(first, ops).store.shortcuts ==
               [Shortcut(two.owner, INBOX, two.mail, two.mailBucket, |two.content|, 1, false, false)]
  {
    hide Delivered, CountUnseen, CString, Run, GivenUids, Possible, NextUid, DeleteShortcut;
    var owner, first := one.owner, EMPTY.(mailboxes := mailboxes);
    var r, key := Reference(one.mail, |one.content|, one.mailBucket), UidKey(one.bucket, owner);
    FirstMail(first, one);
    var a := Delivered(first, one);
    var b := Apply(a, DeleteMails(owner, [r]));
    OneDeleted(a.store, owner, r);
    OnlyRowDeleted(a.store.shortcuts[0], owner, r);
    var c := Apply(b, LoseUid(key));
    FirstMail(c, two);
    assert Listed(a, owner, r);
    var last := [Deliver(two)];
    var later := [LoseUid(key)] + last;
    var rest := [DeleteMails(owner, [r])] + later;
    assert last[1..] == [] && later[1..] == last && rest[1..] == later && ([Deliver(one)] + rest)[1..] == rest;
    NoSteps(Delivered(c, two), accounts, owner);
    FirstStep(c, last, accounts, owner);
    FirstStep(b, later, accounts, owner);
    FirstStep(a, rest, accounts, owner);
    FirstStep(first, [Deliver(one)] + rest, accounts, owner);
    assert [Deliver(one)] + rest == [Deliver(one), DeleteMails(owner, [r]), LoseUid(key), Deliver(two)];
  }

  // A mail for an empty table and a counter that is not cached.
  lemma FirstMail(st: State, t: Task)
    requires st.store.shortcuts == [] && UidKey(t.bucket, t.owner) !in st.uids
    requires MailboxKey(t.bucket, t.owner, t.path) in st.mailboxes
    ensures var after := Delivered(st, t);
            && NextUid(st, t.bucket, t.owner) == 1
            && after.store.shortcuts == [Shortcut(t.owner, t.path, t.mail, t.mailBucket, |t.content|, 1, false, false)]
            && after.used == st.used + {t.mail} && after.mailboxes == st.mailboxes
  {
    hide CountUnseen, CString;
    assert [] + [NewShortcut(st, t)] == [NewShortcut(st, t)];
  }

  lemma OnlyRowDeleted(row: Shortcut, who: Owner, r: Reference)
    requires Shortcuts(row, who, r)
    ensures DeleteShortcut([row], who, r) == []
  {
    assert [row][1..] == [];
  }

  lemma FirstStep(st: State, ops: seq<Op>, accounts: map<Owner, int>, owner: Owner)
    requires ops != []
    ensures Run(st, ops) == Run(Apply(st, ops[0]), ops[1..])
    ensures Possible(st, ops, accounts) <==> Allowed(st, ops[0], accounts) && Possible(Apply(st, ops[0]), ops[1..], accounts)
    ensures GivenUids(st, ops, owner) ==
            (if ops[0].Deliver? && ops[0].task.owner == owner then [NextUid(st, ops[0].task.bucket, owner)] else [])
            + GivenUids(Apply(st, ops[0]), ops[1..], owner)
  {
  }

  lemma NoSteps(st: State, accounts: map<Owner, int>, owner: Owner)
    ensures Run(st, []) == st && Possible(st, [], accounts) && GivenUids(st, [], owner) == []
  {
  }
}
