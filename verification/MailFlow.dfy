// From the sending client to the recipient's mailbox: what the mail server queues, what the
// worker makes of it, and what is read back from the table.
module MailFlow {
  import opened Text
  import opened Mime
  import opened MailStore
  import opened Storage
  import opened StorageWorker
  import Unfolding
  import T = DataText
  import C = SmtpClient
  import J = SmtpJoint
  import D = SmtpDelivery
  import S = SmtpServer
  import SS = SmtpServerSession

  lemma OneTaskLoaded(session: SS.Session, ids: nat -> Id, next: nat)
    requires |session.storage| == 1
    ensures Loaded(session, ids, next) == [TaskOf(session.storage[0], session.raw, ids(next))]
  {
  }

  // The recipient's two mailboxes that mail from outside may end in.
  predicate HasMailboxes(st: State, account: Account)
  {
    && MailboxKey(account.bucket, account.owner, INBOX) in st.mailboxes
    && MailboxKey(account.bucket, account.owner, "INBOX.Spam") in st.mailboxes
  }

  // The one row more in each table that a mail makes.
  predicate StoredAs(st: State, after: State, account: Account, id: Id, text: string, spam: bool)
  {
    && |after.store.shortcuts| == |st.store.shortcuts| + 1 && |after.store.raws| == |st.store.raws| + 1
    && after.store.shortcuts[..|st.store.shortcuts|] == st.store.shortcuts
    && after.store.raws[..|st.store.raws|] == st.store.raws
    && var row, raw := after.store.shortcuts[|st.store.shortcuts|], after.store.raws[|st.store.raws|];
       && row.owner == raw.owner == account.owner && row.mail == raw.mail == id.mail
       && row.bucket == raw.bucket == id.bucket && !row.seen
       && row.mailbox == (if spam then "INBOX.Spam" else "INBOX")
       && row.uid == NextUid(st, account.bucket, account.owner)
       && row.octets == |text| && raw.content == CString(text)
  }

  // A mail that is met kindly is queued by the end of its conversation, and at whatever
  // moment from then on the worker takes its session, in whatever state the store is: there
  // is one row more in each table, for the recipient, in his spam box exactly if the session was
  // judged spam, with his next UID, and it holds what the server makes of the message that was sent.
  lemma MailIsStoredOnce(turns: seq<J.Turn>, k: nat, s: C.Setup, account: Account, st: State, ids: nat -> Id, next: nat)
    requires D.Proper(s) && D.Kindly(J.CONNECTED, turns, s, account) && HasMailboxes(st, account)
    requires k <= |turns|
    ensures |turns| > |C.Script(s)| ==> J.Play(J.CONNECTED, turns, s).link.pushed == S.Pushed(1, 0)
    ensures var link := J.Play(J.CONNECTED, turns[..k], s).link;
            link.pushed != S.NO_PUSH ==>
              && link.pushed == S.Pushed(1, 0)
              && D.Rewritten(s.message, link.session.raw)
              && StoredAs(st, StoreTasks(st, Loaded(link.session, ids, next)), account, ids(next), link.session.raw,
                          link.session.spam)
  {
    hide D.Kindly, D.Proper, J.Play, C.Script, StoreTasks, Loaded, NextUid, CString, D.Rewritten;
    if |turns| > |C.Script(s)| {
      D.MailArrivesOnce(turns, s, account);
    }
    D.KindlySoFar(J.CONNECTED, turns, k, s, account);
    D.WhatWaits(turns[..k], s, account);
    var link := J.Play(J.CONNECTED, turns[..k], s).link;
    if link.pushed != S.NO_PUSH {
      OneTaskLoaded(link.session, ids, next);
      var t := TaskOf(link.session.storage[0], link.session.raw, ids(next));
      OneTask(st, t);
      OneRowMore(st, t);
    }
  }

  lemma OneRowMore(st: State, t: Task)
    requires MailboxKey(t.bucket, t.owner, t.path) in st.mailboxes
    ensures var after := Delivered(st, t);
            && after.store.shortcuts == st.store.shortcuts + [NewShortcut(st, t)]
            && after.store.raws == st.store.raws + [NewRaw(t)]
  {
    hide LargestUid, CountUnseen, CString;
  }

  // What is read back from the table: the headers of the message that was sent, in front of
  // two more, and its body, line by line, if its headers are in their canonical form and no
  // NUL is in the text.
  lemma StoredMailReadsBack(message: string, raw: string, comrade: bool, marks: T.Marks, hs: seq<Unfolding.Canonical>)
    requires T.StoredText(message, T.Added(false, comrade, marks)) == Done(T.Written(raw, true))
    requires Sectioned(message) && Unfolding.Foldable(hs, 128) && T.HeadersOf(message) == Unfolding.Texts(hs)
    requires '\n' !in marks.spf && '\n' !in marks.dkim && '\n' !in marks.dmarc && '\n' !in marks.su && '\n' !in marks.received
    requires 0 as char !in raw
    ensures var stored := CString(raw);
            && Sectioned(stored) && T.BodyOf(stored) == T.BodyOf(message)
            && T.HeadersOf(message) <= T.HeadersOf(stored)
  {
    hide T.StoredText, T.Added, Sectioned, T.HeadersOf, T.BodyOf, T.AllFold, T.PhysicalLines, T.Named;
    T.AddedIsNamed(false, comrade, marks);
    AddedIsTwo(comrade, marks);
    T.StoredTextReadsBack(message, T.Added(false, comrade, marks), hs);
    NulFree(raw);
  }

  lemma AddedIsTwo(comrade: bool, marks: T.Marks)
    ensures |T.Added(false, comrade, marks)| == 2
  {
  }

  lemma {:induction false} NulFree(text: string)
    requires 0 as char !in text
    ensures CString(text) == text
  {
    if text != "" {
      NulFree(text[1..]);
    }
  }
}
