// The two tables of the mail store: shortcuts and raw mails (lib/models/EmailShortcut.src.cc,
// lib/models/RawEmail.src.cc). A table is the sequence of its rows, in order of insertion.
module MailStore {

  // A TIMEUUID: the time stamp in it and the rest.
  datatype Uuid = Uuid(time: nat, rest: nat)

  datatype Owner = Owner(domain: string, uuid: Uuid)

  // `AccountShortcut`
  datatype Account = Account(owner: Owner, username: string, bucket: int)

  // An account record as its constructor leaves it.
  const NO_ACCOUNT := Account(Owner("", Uuid(0, 0)), "", 0)

  datatype Shortcut = Shortcut(
    owner: Owner, mailbox: string, mail: Uuid, bucket: int, octets: nat, uid: int, seen: bool, deleted: bool)

  datatype Raw = Raw(bucket: int, owner: Owner, mail: Uuid, content: string)

  // What makes a shortcut and a raw mail belong together.
  datatype Key = Key(bucket: int, owner: Owner, mail: Uuid)

  const INBOX := "INBOX"

  function ShortcutKeys(rows: seq<Shortcut>): (keys: seq<Key>)
    ensures |keys| == |rows|
  {
    seq(|rows|, i requires 0 <= i < |rows| => Key(rows[i].bucket, rows[i].owner, rows[i].mail))
  }

  function RawKeys(rows: seq<Raw>): (keys: seq<Key>)
    ensures |keys| == |rows|
  {
    seq(|rows|, i requires 0 <= i < |rows| => Key(rows[i].bucket, rows[i].owner, rows[i].mail))
  }

  // One entry of a list of references.
  datatype Reference = Reference(mail: Uuid, octets: nat, bucket: int)

  // `EmailShortcut::deleteOne` in the INBOX, and `RawEmail::deleteOne`.
  predicate Shortcuts(row: Shortcut, owner: Owner, r: Reference)
  {
    row.owner == owner && row.mail == r.mail && row.mailbox == INBOX
  }

  predicate Raws(row: Raw, owner: Owner, r: Reference)
  {
    row.bucket == r.bucket && row.owner == owner && row.mail == r.mail
  }

  function DeleteShortcut(rows: seq<Shortcut>, owner: Owner, r: Reference): (left: seq<Shortcut>)
    ensures forall row :: row in left <==> row in rows && !Shortcuts(row, owner, r)
  {
    if rows == [] then []
    else
      var rest := DeleteShortcut(rows[1..], owner, r);
      assert rows == [rows[0]] + rows[1..];
      if Shortcuts(rows[0], owner, r) then rest else [rows[0]] + rest
  }

  function DeleteRaw(rows: seq<Raw>, owner: Owner, r: Reference): (left: seq<Raw>)
    ensures forall row :: row in left <==> row in rows && !Raws(row, owner, r)
  {
    if rows == [] then []
    else
      var rest := DeleteRaw(rows[1..], owner, r);
      assert rows == [rows[0]] + rows[1..];
      if Raws(rows[0], owner, r) then rest else [rows[0]] + rest
  }

  datatype Store = Store(shortcuts: seq<Shortcut>, raws: seq<Raw>)

  // Deleting one mail: its shortcut, then its raw form.
  function DeleteMail(s: Store, owner: Owner, r: Reference): Store
  {
    Store(DeleteShortcut(s.shortcuts, owner, r), DeleteRaw(s.raws, owner, r))
  }

  function DeleteAll(s: Store, owner: Owner, rs: seq<Reference>): Store
    decreases |rs|
  {
    if rs == [] then s else DeleteAll(DeleteMail(s, owner, rs[0]), owner, rs[1..])
  }

  // The rows that are none of the listed mails, in their order.
  function OtherShortcuts(rows: seq<Shortcut>, owner: Owner, rs: seq<Reference>): seq<Shortcut>
  {
    if rows == [] then []
    else (if exists r :: r in rs && Shortcuts(rows[0], owner, r) then [] else [rows[0]]) + OtherShortcuts(rows[1..], owner, rs)
  }

  function OtherRaws(rows: seq<Raw>, owner: Owner, rs: seq<Reference>): seq<Raw>
  {
    if rows == [] then []
    else (if exists r :: r in rs && Raws(rows[0], owner, r) then [] else [rows[0]]) + OtherRaws(rows[1..], owner, rs)
  }

  lemma {:induction false} OtherShortcutsOne(rows: seq<Shortcut>, owner: Owner, r: Reference, rs: seq<Reference>)
    ensures OtherShortcuts(DeleteShortcut(rows, owner, r), owner, rs) == OtherShortcuts(rows, owner, [r] + rs)
  {
    if rows != [] {
      OtherShortcutsOne(rows[1..], owner, r, rs);
      var rest := DeleteShortcut(rows[1..], owner, r);
      if Shortcuts(rows[0], owner, r) {
        assert r in [r] + rs;
        assert [] + OtherShortcuts(rows[1..], owner, [r] + rs) == OtherShortcuts(rows[1..], owner, [r] + rs);
      } else {
        assert ([rows[0]] + rest)[1..] == rest;
        assert (exists x :: x in rs && Shortcuts(rows[0], owner, x))
          <==> (exists x :: x in [r] + rs && Shortcuts(rows[0], owner, x)) by {
          forall x | x in rs && Shortcuts(rows[0], owner, x) ensures x in [r] + rs {
          }
        }
      }
    }
  }

  lemma {:induction false} OtherRawsOne(rows: seq<Raw>, owner: Owner, r: Reference, rs: seq<Reference>)
    ensures OtherRaws(DeleteRaw(rows, owner, r), owner, rs) == OtherRaws(rows, owner, [r] + rs)
  {
    if rows != [] {
      OtherRawsOne(rows[1..], owner, r, rs);
      var rest := DeleteRaw(rows[1..], owner, r);
      if Raws(rows[0], owner, r) {
        assert r in [r] + rs;
        assert [] + OtherRaws(rows[1..], owner, [r] + rs) == OtherRaws(rows[1..], owner, [r] + rs);
      } else {
        assert ([rows[0]] + rest)[1..] == rest;
        assert (exists x :: x in rs && Raws(rows[0], owner, x))
          <==> (exists x :: x in [r] + rs && Raws(rows[0], owner, x)) by {
          forall x | x in rs && Raws(rows[0], owner, x) ensures x in [r] + rs {
          }
        }
      }
    }
  }

  lemma {:induction false} NoneListed(rows: seq<Shortcut>, raws: seq<Raw>, owner: Owner)
    ensures OtherShortcuts(rows, owner, []) == rows && OtherRaws(raws, owner, []) == raws
    decreases |rows| + |raws|
  {
    if rows != [] {
      NoneListed(rows[1..], [], owner);
      assert rows == [rows[0]] + rows[1..];
    }
    if raws != [] {
      NoneListed([], raws[1..], owner);
      assert raws == [raws[0]] + raws[1..];
    }
  }

  // Deleting mail after mail leaves the rows that are none of the listed mails, whatever
  // the order of the list and however often a mail is in it.
  lemma {:induction false} DeleteAllIs(s: Store, owner: Owner, rs: seq<Reference>)
    ensures DeleteAll(s, owner, rs) ==
            Store(OtherShortcuts(s.shortcuts, owner, rs), OtherRaws(s.raws, owner, rs))
    decreases |rs|
  {
    if rs == [] {
      NoneListed(s.shortcuts, s.raws, owner);
    } else {
      DeleteAllIs(DeleteMail(s, owner, rs[0]), owner, rs[1..]);
      OtherShortcutsOne(s.shortcuts, owner, rs[0], rs[1..]);
      OtherRawsOne(s.raws, owner, rs[0], rs[1..]);
      assert rs == [rs[0]] + rs[1..];
    }
  }

  lemma {:induction false} OtherShortcutsHas(rows: seq<Shortcut>, owner: Owner, rs: seq<Reference>, row: Shortcut)
    ensures row in OtherShortcuts(rows, owner, rs) <==>
            row in rows && !(exists r :: r in rs && Shortcuts(row, owner, r))
  {
    if rows != [] {
      assert rows == [rows[0]] + rows[1..];
      OtherShortcutsHas(rows[1..], owner, rs, row);
    }
  }

  lemma {:induction false} OtherRawsHas(rows: seq<Raw>, owner: Owner, rs: seq<Reference>, row: Raw)
    ensures row in OtherRaws(rows, owner, rs) <==> row in rows && !(exists r :: r in rs && Raws(row, owner, r))
  {
    if rows != [] {
      assert rows == [rows[0]] + rows[1..];
      OtherRawsHas(rows[1..], owner, rs, row);
    }
  }
}
