/**
 * The e-mail client's store: folders with their unread counters, e-mails
 * with their message threads, the selected folder and e-mail, and the state
 * of the reply composer. The clock (`new Date()`) is a parameter.
 */
module EmailStore {
  import opened Wrappers
  import opened JsNum
  import Sorting

  datatype Folder = Folder(id: string, name: string, unread: int)

  /** A message of a thread; dates are clock readings, attachments their names. */
  datatype Message = Message(id: string, from: string, fromEmail: string, date: int, content: string,
                             attachments: seq<string>)

  datatype Email = Email(id: int, folderId: string, from: string, subject: string, date: int, read: bool,
                         thread: seq<Message>)

  /** The folders and the e-mails: the part of the store the actions edit. */
  datatype Mailbox = Mailbox(folders: seq<Folder>, emails: seq<Email>)

  /** Lines 7-12: no folder counter is negative. */
  predicate CountersValid(folders: seq<Folder>) {
    forall k :: 0 <= k < |folders| ==> folders[k].unread >= 0
  }

  // ------------------------------------------------------------ lookups

  /** `xs.findIndex(x => key(x) === k)`: the first position whose key is `k`, or -1. */
  function FindBy<T, K(==)>(xs: seq<T>, key: T -> K, k: K): (i: int)
    ensures -1 <= i < |xs|
    ensures i >= 0 ==> key(xs[i]) == k
    ensures forall j :: 0 <= j < |xs| && (i == -1 || j < i) ==> key(xs[j]) != k
    decreases |xs|
  {
    if xs == [] then -1
    else if key(xs[0]) == k then 0
    else
      var rest := FindBy(xs[1..], key, k);
      assert forall j :: 1 <= j < |xs| ==> xs[j] == xs[1..][j - 1];
      if rest == -1 then -1 else rest + 1
  }

  /** Two sequences with the same keys, position by position, have the same first match. */
  lemma FindBySameKeys<T, U, K>(a: seq<T>, keyA: T -> K, b: seq<U>, keyB: U -> K, k: K)
    requires |a| == |b| && forall j :: 0 <= j < |a| ==> keyA(a[j]) == keyB(b[j])
    ensures FindBy(a, keyA, k) == FindBy(b, keyB, k)
  {
  }

  /** `emails.findIndex(e => e.id === id)`. */
  function FindEmail(emails: seq<Email>, id: int): int {
    FindBy(emails, (e: Email) => e.id, id)
  }

  /** `folders.find(f => f.id === id)`, as a position or -1. */
  function FindFolder(folders: seq<Folder>, id: string): int {
    FindBy(folders, (f: Folder) => f.id, id)
  }

  // -------------------------------------------------------------- unread

  /** `emails.filter(e => !e.read)` */
  function Unread(emails: seq<Email>): seq<Email>
    decreases |emails|
  {
    if emails == [] then []
    else if emails[|emails| - 1].read then Unread(emails[..|emails| - 1])
    else Unread(emails[..|emails| - 1]) + [emails[|emails| - 1]]
  }

  /** Lines 179-181: `unreadCount`. */
  function UnreadCount(emails: seq<Email>): nat {
    |Unread(emails)|
  }

  /** The positions of the unread e-mails. */
  ghost function UnreadPositions(emails: seq<Email>): set<int> {
    set k | 0 <= k < |emails| && !emails[k].read
  }

  /** The unread count is the number of e-mails whose read flag is false. */
  lemma {:induction false} UnreadCountCountsUnread(emails: seq<Email>)
    ensures UnreadCount(emails) == |UnreadPositions(emails)|
    decreases |emails|
  {
    if emails != [] {
      var n := |emails| - 1;
      var init := emails[..n];
      UnreadCountCountsUnread(init);
      if emails[n].read {
        assert UnreadPositions(emails) == UnreadPositions(init);
      } else {
        assert UnreadPositions(emails) == UnreadPositions(init) + {n};
      }
    }
  }

  lemma {:induction false} UnreadAppend(a: seq<Email>, b: seq<Email>)
    ensures UnreadCount(a + b) == UnreadCount(a) + UnreadCount(b)
    decreases |b|
  {
    if b == [] {
      assert a + b == a;
    } else {
      var n := |b| - 1;
      UnreadAppend(a, b[..n]);
      assert (a + b)[..|a + b| - 1] == a + b[..n];
    }
  }

  lemma UnreadOfOne(e: Email)
    ensures UnreadCount([e]) == if e.read then 0 else 1
  {
    assert [e][..0] == [];
    assert Unread([e]) == Unread([]) + (if e.read then [] else [e]);
  }

  /** Replacing one e-mail changes the count by what its read flag changes. */
  lemma UnreadUpdate(emails: seq<Email>, i: int, e: Email)
    requires 0 <= i < |emails|
    ensures UnreadCount(emails[i := e]) == UnreadCount(emails) - (if emails[i].read then 0 else 1) + (if e.read then 0 else 1)
  {
    var pre, post := emails[..i], emails[i + 1..];
    assert emails == pre + [emails[i]] + post;
    assert emails[i := e] == pre + [e] + post;
    UnreadAppend(pre + [emails[i]], post);
    UnreadAppend(pre, [emails[i]]);
    UnreadAppend(pre + [e], post);
    UnreadAppend(pre, [e]);
    UnreadOfOne(emails[i]);
    UnreadOfOne(e);
  }

  // -------------------------------------------------------- mark as read

  /** Lines 199-209: `markAsRead` on the mailbox. */
  function MarkRead(m: Mailbox, id: int): Mailbox {
    var i := FindEmail(m.emails, id);
    if i < 0 || m.emails[i].read then m
    else
      var e := m.emails[i];
      var j := FindFolder(m.folders, e.folderId);
      var folders := if j >= 0 && m.folders[j].unread > 0
        then m.folders[j := m.folders[j].(unread := m.folders[j].unread - 1)] else m.folders;
      Mailbox(folders, m.emails[i := e.(read := true)])
  }

  /** Marking an e-mail read twice is marking it once. */
  lemma MarkReadIdempotent(m: Mailbox, id: int)
    ensures MarkRead(MarkRead(m, id), id) == MarkRead(m, id)
  {
    var i := FindEmail(m.emails, id);
    if i >= 0 && !m.emails[i].read {
      var r := MarkRead(m, id);
      assert FindEmail(r.emails, id) == i by {
        assert forall k :: 0 <= k < |r.emails| ==> r.emails[k].id == m.emails[k].id;
        FindBySameKeys(m.emails, (e: Email) => e.id, r.emails, (e: Email) => e.id, id);
      }
    }
  }

  /**
   * Only an unread e-mail with this id changes, and only its read flag; the
   * unread count then drops by one, otherwise nothing changes. The counter
   * of its folder drops by one when it is positive; no other counter moves,
   * and none becomes negative.
   */
  lemma MarkReadFacts(m: Mailbox, id: int)
    ensures var r, i := MarkRead(m, id), FindEmail(m.emails, id);
      && |r.emails| == |m.emails| && |r.folders| == |m.folders|
      && (forall k :: 0 <= k < |m.emails| && k != i ==> r.emails[k] == m.emails[k])
      && (i >= 0 ==> r.emails[i] == m.emails[i].(read := true))
      && UnreadCount(r.emails) == UnreadCount(m.emails) - (if i >= 0 && !m.emails[i].read then 1 else 0)
      && (forall k :: 0 <= k < |m.folders| ==>
            r.folders[k] == m.folders[k]
            || (i >= 0 && !m.emails[i].read && m.folders[k].id == m.emails[i].folderId && m.folders[k].unread > 0
                && r.folders[k] == m.folders[k].(unread := m.folders[k].unread - 1)))
      && (CountersValid(m.folders) ==> CountersValid(r.folders))
  {
    var i := FindEmail(m.emails, id);
    if i >= 0 && !m.emails[i].read {
      UnreadUpdate(m.emails, i, m.emails[i].(read := true));
    }
  }

  // --------------------------------------------------------------- reply

  /** Line 215: the id of the `n`-th message of e-mail `id`'s thread. */
  function ReplyId(id: int, n: nat): string {
    "t" + IntToString(id) + "-" + IntToString(n)
  }

  /** Replies to one e-mail get distinct ids as its thread grows. */
  lemma ReplyIdsDistinct(id: int, n: nat, n': nat)
    requires n != n'
    ensures ReplyId(id, n) != ReplyId(id, n')
  {
    var prefix := "t" + IntToString(id) + "-";
    assert ReplyId(id, n)[|prefix|..] == IntToString(n);
    assert ReplyId(id, n')[|prefix|..] == IntToString(n');
  }

  /**
   * Lines 211-228: `sendReply` on the mailbox. The source reads the clock
   * twice: `sentAt` dates the new message and `datedAt` the e-mail.
   */
  function Replied(m: Mailbox, id: int, content: string, sentAt: int, datedAt: int): Mailbox {
    var i := FindEmail(m.emails, id);
    if i < 0 then m
    else
      var e := m.emails[i];
      var message := Message(ReplyId(id, |e.thread| + 1), "Sie", "office@quagg.de", sentAt, content, []);
      var date := if e.folderId != "sent" then datedAt else e.date;
      Mailbox(m.folders, m.emails[i := e.(thread := e.thread + [message], date := date)])
  }

  /**
   * A reply to a known e-mail appends one message by "Sie", with the next id
   * and the given content dated `sentAt`, and dates the e-mail `datedAt` unless it is in the
   * sent folder; the e-mail keeps its folder and read flag, the others and
   * the folders are unchanged. A reply to an unknown id changes nothing.
   */
  lemma RepliedFacts(m: Mailbox, id: int, content: string, sentAt: int, datedAt: int)
    ensures var r, i := Replied(m, id, content, sentAt, datedAt), FindEmail(m.emails, id);
      && r.folders == m.folders && |r.emails| == |m.emails|
      && (i < 0 ==> r == m)
      && (forall k :: 0 <= k < |m.emails| && k != i ==> r.emails[k] == m.emails[k])
      && UnreadCount(r.emails) == UnreadCount(m.emails)
      && (i >= 0 ==> (
        var e, e' := m.emails[i], r.emails[i];
        && e'.thread[..|e.thread|] == e.thread && |e'.thread| == |e.thread| + 1
        && e'.thread[|e.thread|].id == ReplyId(id, |e.thread| + 1)
        && e'.thread[|e.thread|].from == "Sie" && e'.thread[|e.thread|].content == content
        && e'.thread[|e.thread|].date == sentAt
        && e'.folderId == e.folderId && e'.read == e.read && e'.id == e.id
        && e'.date == (if e.folderId == "sent" then e.date else datedAt)))
  {
    var i := FindEmail(m.emails, id);
    if i >= 0 {
      var r := Replied(m, id, content, sentAt, datedAt);
      UnreadUpdate(m.emails, i, r.emails[i]);
    }
  }

  // -------------------------------------------------------------- delete

  /** Lines 233-239: the e-mails with the first one of this id spliced out. */
  function Deleted(emails: seq<Email>, id: int): seq<Email> {
    var i := FindEmail(emails, id);
    if i < 0 then emails else emails[..i] + emails[i + 1..]
  }

  /**
   * Deleting an unknown id changes nothing; otherwise exactly one e-mail
   * goes, the first with that id, the rest keep their order, and the unread
   * count drops by one when that e-mail was unread.
   */
  lemma DeletedFacts(emails: seq<Email>, id: int)
    ensures FindEmail(emails, id) < 0 ==> Deleted(emails, id) == emails
    ensures FindEmail(emails, id) >= 0 ==>
      && Deleted(emails, id) == emails[..FindEmail(emails, id)] + emails[FindEmail(emails, id) + 1..]
      && |Deleted(emails, id)| == |emails| - 1
      && multiset(Deleted(emails, id)) + multiset{emails[FindEmail(emails, id)]} == multiset(emails)
      && UnreadCount(Deleted(emails, id)) == UnreadCount(emails) - (if emails[FindEmail(emails, id)].read then 0 else 1)
  {
    var i := FindEmail(emails, id);
    if i >= 0 {
      SplicedFacts(emails, i, Deleted(emails, id));
    }
  }

  /** Splicing out the e-mail at `i` removes exactly it, and its unread mark with it. */
  lemma SplicedFacts(emails: seq<Email>, i: nat, spliced: seq<Email>)
    requires i < |emails| && spliced == emails[..i] + emails[i + 1..]
    ensures |spliced| == |emails| - 1
    ensures multiset(spliced) + multiset{emails[i]} == multiset(emails)
    ensures UnreadCount(spliced) == UnreadCount(emails) - (if emails[i].read then 0 else 1)
  {
    var pre, post := emails[..i], emails[i + 1..];
    assert emails == pre + [emails[i]] + post;
    UnreadAppend(pre + [emails[i]], post);
    UnreadAppend(pre, [emails[i]]);
    UnreadAppend(pre, post);
    UnreadOfOne(emails[i]);
  }

  // ------------------------------------------------------------- getters

  /** The emails of a folder, in their order. */
  function InFolder(emails: seq<Email>, folderId: string): (r: seq<Email>)
    ensures forall e :: e in r ==> e in emails && e.folderId == folderId
    ensures forall e :: e in emails && e.folderId == folderId ==> e in r
    decreases |emails|
  {
    if emails == [] then []
    else
      var init, last := emails[..|emails| - 1], emails[|emails| - 1];
      assert forall e :: e in emails ==> e in init || e == last;
      if last.folderId == folderId then InFolder(init, folderId) + [last] else InFolder(init, folderId)
  }

  /** The sort key of `b.date - a.date`: newest first. */
  function Newest(e: Email): real {
    -(e.date as real)
  }

  /** Lines 173-177: `currentFolderEmails`. */
  function FolderEmails(emails: seq<Email>, folderId: string): seq<Email> {
    Sorting.SortBy(InFolder(emails, folderId), Newest)
  }

  /** The folder view holds exactly the folder's e-mails, newest first. */
  lemma FolderEmailsFacts(emails: seq<Email>, folderId: string)
    ensures multiset(FolderEmails(emails, folderId)) == multiset(InFolder(emails, folderId))
    ensures forall e :: e in FolderEmails(emails, folderId) <==> e in emails && e.folderId == folderId
    ensures forall i, j :: 0 <= i < j < |FolderEmails(emails, folderId)| ==>
      FolderEmails(emails, folderId)[i].date >= FolderEmails(emails, folderId)[j].date
  {
    var v := FolderEmails(emails, folderId);
    Sorting.SortBySorted(InFolder(emails, folderId), Newest);
    forall e
      ensures e in v <==> e in InFolder(emails, folderId)
    {
      assert e in v <==> e in multiset(v);
    }
    forall i, j | 0 <= i < j < |v|
      ensures v[i].date >= v[j].date
    {
      assert Newest(v[i]) <= Newest(v[j]);
    }
  }

  /** Lines 183-186: `selectedEmailData`; an id of 0 counts as no selection. */
  function SelectedEmailData(emails: seq<Email>, selected: Option<int>): (r: Option<Email>)
    ensures r.Some? <==> selected.Some? && selected.value != 0 && FindEmail(emails, selected.value) >= 0
    ensures r.Some? ==> r.value == emails[FindEmail(emails, selected.value)] && r.value.id == selected.value
  {
    if selected.None? || selected.value == 0 then None
    else
      var i := FindEmail(emails, selected.value);
      if i < 0 then None else Some(emails[i])
  }

  // --------------------------------------------------------------- store

  class Store {
    var folders: seq<Folder>
    var emails: seq<Email>
    var selectedFolder: string
    var selectedEmail: Option<int>
    var composerOpen: bool
    var replyToEmail: Option<int>

    function Box(): Mailbox
      reads this
    {
      Mailbox(folders, emails)
    }

    ghost predicate Valid()
      reads this
    {
      CountersValid(folders)
    }

    /** Lines 6-170: the store seeded with folders and e-mails, the inbox selected, the composer closed. */
    constructor(seedFolders: seq<Folder>, seedEmails: seq<Email>)
      requires CountersValid(seedFolders)
      ensures Valid()
      ensures folders == seedFolders && emails == seedEmails
      ensures selectedFolder == "inbox" && selectedEmail == None && !composerOpen && replyToEmail == None
    {
      folders, emails := seedFolders, seedEmails;
      selectedFolder, selectedEmail := "inbox", None;
      composerOpen, replyToEmail := false, None;
    }

    /** `selectFolder`: the folder is selected and the e-mail selection cleared. */
    method SelectFolder(folderId: string)
      modifies this
      ensures selectedFolder == folderId && selectedEmail == None
      ensures Box() == old(Box()) && composerOpen == old(composerOpen) && replyToEmail == old(replyToEmail)
    {
      selectedFolder := folderId;
      selectedEmail := None;
    }

    /** `markAsRead` */
    method MarkAsRead(emailId: int)
      requires Valid()
      modifies this
      ensures Valid()
      ensures Box() == MarkRead(old(Box()), emailId)
      ensures selectedFolder == old(selectedFolder) && selectedEmail == old(selectedEmail)
      ensures composerOpen == old(composerOpen) && replyToEmail == old(replyToEmail)
    {
      MarkReadFacts(Box(), emailId);
      var i := FindEmail(emails, emailId);
      if i >= 0 && !emails[i].read {
        var email := emails[i];
        emails := emails[i := email.(read := true)];
        var j := FindFolder(folders, email.folderId);
        if j >= 0 && folders[j].unread > 0 {
          folders := folders[j := folders[j].(unread := folders[j].unread - 1)];
        }
      }
    }

    /** `selectEmail`: the e-mail is selected and marked read. */
    method SelectEmail(emailId: int)
      requires Valid()
      modifies this
      ensures Valid()
      ensures selectedEmail == Some(emailId) && Box() == MarkRead(old(Box()), emailId)
      ensures selectedFolder == old(selectedFolder)
      ensures composerOpen == old(composerOpen) && replyToEmail == old(replyToEmail)
    {
      selectedEmail := Some(emailId);
      MarkAsRead(emailId);
    }

    /** `sendReply` with the clock readings `sentAt` and `datedAt`: the reply is appended and the composer closed. */
    method SendReply(emailId: int, content: string, sentAt: int, datedAt: int)
      requires Valid()
      modifies this
      ensures Valid()
      ensures Box() == Replied(old(Box()), emailId, content, sentAt, datedAt)
      ensures !composerOpen && replyToEmail == None
      ensures selectedFolder == old(selectedFolder) && selectedEmail == old(selectedEmail)
    {
      var i := FindEmail(emails, emailId);
      if i >= 0 {
        var email := emails[i];
        var newMessage := Message(ReplyId(emailId, |email.thread| + 1), "Sie", "office@quagg.de", sentAt, content, []);
        email := email.(thread := email.thread + [newMessage]);
        if email.folderId != "sent" {
          email := email.(date := datedAt);
        }
        emails := emails[i := email];
      }
      composerOpen := false;
      replyToEmail := None;
    }

    /** `deleteEmail`: a known e-mail is spliced out and the selection cleared; an unknown id changes nothing. */
    method DeleteEmail(emailId: int)
      requires Valid()
      modifies this
      ensures Valid()
      ensures emails == Deleted(old(emails), emailId) && folders == old(folders)
      ensures selectedEmail == if FindEmail(old(emails), emailId) >= 0 then None else old(selectedEmail)
      ensures selectedFolder == old(selectedFolder)
      ensures composerOpen == old(composerOpen) && replyToEmail == old(replyToEmail)
    {
      var index := FindEmail(emails, emailId);
      if index > -1 {
        emails := emails[..index] + emails[index + 1..];
        selectedEmail := None;
      }
    }

    /** `openComposer`: open, replying to the given e-mail or to none. */
    method OpenComposer(emailId: Option<int>)
      modifies this
      ensures composerOpen && replyToEmail == emailId
      ensures Box() == old(Box()) && selectedFolder == old(selectedFolder) && selectedEmail == old(selectedEmail)
    {
      composerOpen := true;
      replyToEmail := emailId;
    }

    /** `closeComposer` */
    method CloseComposer()
      modifies this
      ensures !composerOpen && replyToEmail == None
      ensures Box() == old(Box()) && selectedFolder == old(selectedFolder) && selectedEmail == old(selectedEmail)
    {
      composerOpen := false;
      replyToEmail := None;
    }
  }
}
