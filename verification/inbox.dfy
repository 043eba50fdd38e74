/** The inbox: clients publish staged packs, workers drain them into the store, and a crash can come
    at any point. Every step that other threads or a crash can come between is a step here. */
module Inbox {
  import opened Bits
  import opened Endian

  type Key = Bytes
  type Name = Bytes
  type Body = Bytes

  /** The header of an entry file: unreadable, without a proper root, or with one. */
  datatype Header = Garbled | BadRoot | Rooted(root: Key)

  datatype File = File(header: Header, body: Body)

  /** A queued entry; the ticket tells one commit from another. */
  datatype Item = Item(name: Name, root: Key, body: Body, ticket: nat)

  datatype Client =
    | Ready
    | Staged(root: Key, body: Body)
    | Statted(root: Key, body: Body)
    | Renamed(root: Key, body: Body)
    | Synced(root: Key, body: Body)
    | Committed(root: Key, ticket: nat)

  datatype Worker =
    | Idle
    | Taken(item: Item)
    | Opened(item: Item)
    | Written(item: Item)
    | Failing(item: Item)
    | Processed(item: Item)
    | Exited

  /** Files, queue and counts, what every thread is doing, and for the record: the entries queued
      and finished so far, the bodies accepted, the names left where they are by a failed call, the
      entries taken away since the directory was last synced, and how many were queued when the inbox
      was closed. */
  datatype State = State(
    files: map<Name, File>,
    failed: map<Name, File>,
    synced: set<Name>,
    stored: set<Body>,
    work: seq<Item>,
    groups: map<Key, nat>,
    closed: bool,
    clients: seq<Client>,
    workers: seq<Worker>,
    issued: seq<Item>,
    finished: set<nat>,
    accepted: set<Body>,
    open: bool,
    left: set<Name>,
    gone: map<Name, File>,
    cutoff: nat)

  /** The number of unprocessed entries of a root, as `wait_for` sees it. */
  function Group(s: State, k: Key): nat {
    if k in s.groups then s.groups[k] else 0
  }

  function Incremented(groups: map<Key, nat>, k: Key): map<Key, nat> {
    groups[k := (if k in groups then groups[k] else 0) + 1]
  }

  /** The release at the end of a worker's round: the last entry of a root removes its count. */
  function Decremented(groups: map<Key, nat>, k: Key): map<Key, nat> {
    if k !in groups then groups
    else if groups[k] > 1 then groups[k := groups[k] - 1]
    else groups - {k}
  }

  // ----- Client steps: `stage`, `discard`, `commit`, `wait_for`.

  predicate Moves(s: State, t: State, c: nat, client: Client) {
    c < |s.clients| && t.clients == s.clients[c := client]
  }

  ghost predicate StageStep(s: State, t: State, c: nat, root: Key, body: Body) {
    && Moves(s, t, c, Staged(root, body)) && s.clients[c] == Ready && s.open
    && t == s.(clients := t.clients)
  }

  /** Turning to something else: the tmp file was discarded, a call failed before the entry was
      queued, or nobody waits. A failed sync leaves the entry unqueued. */
  ghost predicate GiveUpStep(s: State, t: State, hash: Body -> Name, c: nat) {
    && Moves(s, t, c, Ready) && !s.clients[c].Synced?
    && t == s.(clients := t.clients,
               left := if s.clients[c].Renamed? then s.left + {hash(s.clients[c].body)} else s.left)
  }

  /** The check whether the entry exists; if it does, the commit ends and returns false. */
  ghost predicate StatStep(s: State, t: State, hash: Body -> Name, c: nat) {
    && c < |s.clients| && s.clients[c].Staged?
    && var me := s.clients[c];
       && Moves(s, t, c, if hash(me.body) in s.files then Ready else Statted(me.root, me.body))
       && t == s.(clients := t.clients)
  }

  /** The rename, which replaces an entry that another commit put there meanwhile. */
  ghost predicate RenameStep(s: State, t: State, hash: Body -> Name, c: nat) {
    && c < |s.clients| && s.clients[c].Statted?
    && var me := s.clients[c];
       && Moves(s, t, c, Renamed(me.root, me.body))
       && t == s.(clients := t.clients, files := s.files[hash(me.body) := File(Rooted(me.root), me.body)],
                  left := s.left - {hash(me.body)})
  }

  ghost predicate SyncStep(s: State, t: State, c: nat) {
    && c < |s.clients| && s.clients[c].Renamed?
    && var me := s.clients[c];
       && Moves(s, t, c, Synced(me.root, me.body))
       && t == s.(clients := t.clients, synced := s.files.Keys, accepted := s.accepted + {me.body},
                  gone := map[])
  }

  /** Under the lock: the count of the root goes up and the entry is queued; the commit returns true. */
  ghost predicate EnqueueStep(s: State, t: State, hash: Body -> Name, c: nat) {
    && c < |s.clients| && s.clients[c].Synced?
    && var me := s.clients[c];
       var item := Item(hash(me.body), me.root, me.body, |s.issued|);
       && Moves(s, t, c, Committed(me.root, item.ticket))
       && t == s.(clients := t.clients, work := s.work + [item], groups := Incremented(s.groups, me.root),
                  issued := s.issued + [item])
  }

  /** `wait_for` on the root just committed returns. */
  ghost predicate WaitReturnStep(s: State, t: State, c: nat) {
    && Moves(s, t, c, Ready) && s.clients[c].Committed? && Group(s, s.clients[c].root) == 0
    && t == s.(clients := t.clients)
  }

  // ----- Worker steps: `process_loop`, `process`, `quarantine`.

  predicate Turns(s: State, t: State, w: nat, worker: Worker) {
    w < |s.workers| && t.workers == s.workers[w := worker]
  }

  ghost predicate PopStep(s: State, t: State, w: nat) {
    && s.work != [] && Turns(s, t, w, Taken(s.work[0])) && s.workers[w] == Idle
    && t == s.(workers := t.workers, work := s.work[1..])
  }

  ghost predicate ExitStep(s: State, t: State, w: nat) {
    && Turns(s, t, w, Exited) && s.workers[w] == Idle && s.work == [] && s.closed
    && t == s.(workers := t.workers)
  }

  /** Opening the entry and reading its header: it may be gone, fail to open, or not be readable. */
  ghost predicate OpenStep(s: State, t: State, w: nat, opens: bool, legible: bool) {
    && w < |s.workers| && s.workers[w].Taken?
    && var item := s.workers[w].item;
       && (legible && item.name in s.files ==> !s.files[item.name].header.Garbled?)
       && Turns(s, t, w, if item.name !in s.files || !opens then Processed(item)
                         else if !legible then Failing(item)
                         else Opened(item.(body := s.files[item.name].body)))
       && t == s.(workers := t.workers, left := if opens then s.left else s.left + {item.name})
  }

  ghost predicate WriteStep(s: State, t: State, w: nat, succeeds: bool) {
    && w < |s.workers| && s.workers[w].Opened?
    && var item := s.workers[w].item;
       && Turns(s, t, w, if succeeds then Written(item) else Failing(item))
       && t == s.(workers := t.workers, stored := if succeeds then s.stored + {item.body} else s.stored)
  }

  /** What a crash may bring back, once the entry `n` is taken away. */
  function Taking(s: State, n: Name): map<Name, File> {
    if n in s.files then s.gone[n := s.files[n]] else s.gone
  }

  /** Removing the processed entry, by name. */
  ghost predicate RemoveStep(s: State, t: State, w: nat, succeeds: bool) {
    && w < |s.workers| && s.workers[w].Written?
    && var item := s.workers[w].item;
       && Turns(s, t, w, Processed(item))
       && t == s.(workers := t.workers, files := if succeeds then s.files - {item.name} else s.files,
                  synced := if succeeds then s.synced - {item.name} else s.synced,
                  left := if succeeds then s.left - {item.name} else s.left + {item.name},
                  gone := if succeeds then Taking(s, item.name) else s.gone)
  }

  /** Moving an entry to `failed/`, by name. */
  ghost predicate QuarantineStep(s: State, t: State, w: nat, succeeds: bool) {
    && w < |s.workers| && s.workers[w].Failing?
    && var item := s.workers[w].item;
       && Turns(s, t, w, Processed(item))
       && t == if succeeds && item.name in s.files
               then s.(workers := t.workers, failed := s.failed[item.name := s.files[item.name]],
                       files := s.files - {item.name}, synced := s.synced - {item.name}, left := s.left - {item.name},
                       gone := Taking(s, item.name))
               else s.(workers := t.workers, left := s.left + {item.name})
  }

  /** Under the lock: the count of the root goes down; the entry is finished. */
  ghost predicate ReleaseStep(s: State, t: State, w: nat) {
    && w < |s.workers| && s.workers[w].Processed?
    && var item := s.workers[w].item;
       && Turns(s, t, w, Idle)
       && t == s.(workers := t.workers, groups := Decremented(s.groups, item.root), finished := s.finished + {item.ticket})
  }

  ghost predicate CloseStep(s: State, t: State) {
    t == s.(closed := true, cutoff := if s.closed then s.cutoff else |s.issued|)
  }

  // ----- Crash and recovery.

  /** What the directory does to a recovery: entries whose open or header read fails, and entries
      that cannot be moved. */
  datatype Faults = Faults(unread: set<Name>, stuck: set<Name>)

  /** Recovery can read the root of the entry. */
  predicate Readable(s: State, n: Name, faults: Faults) {
    n in s.files && s.files[n].header.Rooted? && n !in faults.unread
  }

  /** An entry found in the directory is queued or, if unreadable, moved to `failed/`. */
  function RecoverOne(s: State, n: Name, faults: Faults): State
    requires n in s.files
  {
    var file := s.files[n];
    if Readable(s, n, faults) then
      var item := Item(n, file.header.root, file.body, |s.issued|);
      s.(work := s.work + [item], groups := Incremented(s.groups, item.root), issued := s.issued + [item])
    else if n in faults.stuck then s.(left := s.left + {n})
    else s.(failed := s.failed[n := file], files := s.files - {n}, synced := s.synced - {n}, left := s.left - {n},
            gone := Taking(s, n))
  }

  ghost predicate Listing(s: State, names: seq<Name>) {
    && (forall i :: 0 <= i < |names| ==> names[i] in s.files)
    && (forall i, j :: 0 <= i < j < |names| ==> names[i] != names[j])
  }

  function Recovered(s: State, names: seq<Name>, faults: Faults): State
    requires Listing(s, names)
    decreases |names|
  {
    if |names| == 0 then s else Recovered(RecoverOne(s, names[0], faults), names[1..], faults)
  }

  /** Everything in memory is lost. What was done to the directory since its last sync may be undone:
      an entry may be missing again, and one that was removed or moved may be back. */
  ghost predicate CrashStep(s: State, t: State) {
    && (forall n :: n in t.files ==>
          (n in s.files && t.files[n] == s.files[n]) || (n in s.gone && t.files[n] == s.gone[n]))
    && (forall n :: n in s.synced && n in s.files ==> n in t.files)
    && (forall n :: n in t.failed ==> n in s.failed && t.failed[n] == s.failed[n])
    && (forall n :: n in s.failed && n !in t.failed ==> n in s.gone && n in t.files)
    && t == State(t.files, t.failed, t.files.Keys, s.stored, [], map[], false, t.clients, t.workers, [], {}, s.accepted,
                 false, {}, map[], 0)
    && (forall c :: 0 <= c < |t.clients| ==> t.clients[c] == Ready)
    && t.workers == []
  }

  function Idles(n: nat): seq<Worker> {
    seq(n, _ => Idle)
  }

  function Started(s: State, workers: nat): State {
    s.(workers := Idles(workers), open := true)
  }

  /** Opening the inbox again: recovery runs before the workers start. */
  ghost predicate OpenInboxStep(s: State, t: State, names: seq<Name>, faults: Faults, workers: nat) {
    && !s.open && s.workers == [] && s.work == [] && s.groups == map[] && s.issued == [] && s.finished == {}
    && Listing(s, names) && (forall n :: n in s.files ==> n in names)
    && t == Started(Recovered(s, names, faults), workers)
  }

  datatype Label =
    | Stage(c: nat, root: Key, body: Body) | GiveUp(c: nat) | Stat(c: nat) | Rename(c: nat) | Sync(c: nat)
    | Enqueue(c: nat) | WaitReturn(c: nat)
    | Pop(w: nat) | Exit(w: nat) | Open(w: nat, ok: bool, legible: bool) | Write(w: nat, ok: bool) | Remove(w: nat, ok: bool)
    | Quarantine(w: nat, ok: bool) | Release(w: nat)
    | Close | Crash | OpenInbox(names: seq<Name>, faults: Faults, workers: nat)

  ghost predicate Step(s: State, t: State, hash: Body -> Name, l: Label) {
    match l
    case Stage(c, root, body) => StageStep(s, t, c, root, body)
    case GiveUp(c) => GiveUpStep(s, t, hash, c)
    case Stat(c) => StatStep(s, t, hash, c)
    case Rename(c) => RenameStep(s, t, hash, c)
    case Sync(c) => SyncStep(s, t, c)
    case Enqueue(c) => EnqueueStep(s, t, hash, c)
    case WaitReturn(c) => WaitReturnStep(s, t, c)
    case Pop(w) => PopStep(s, t, w)
    case Exit(w) => ExitStep(s, t, w)
    case Open(w, ok, legible) => OpenStep(s, t, w, ok, legible)
    case Write(w, ok) => WriteStep(s, t, w, ok)
    case Remove(w, ok) => RemoveStep(s, t, w, ok)
    case Quarantine(w, ok) => QuarantineStep(s, t, w, ok)
    case Release(w) => ReleaseStep(s, t, w)
    case Close => CloseStep(s, t)
    case Crash => CrashStep(s, t)
    case OpenInbox(names, faults, workers) => OpenInboxStep(s, t, names, faults, workers)
  }

  // ----- Counting.

  function One(b: bool): nat { if b then 1 else 0 }

  function ItemOf(w: Worker): Option<Item> {
    if w.Idle? || w.Exited? then None else Some(w.item)
  }

  predicate Has(w: Worker, k: Key) {
    ItemOf(w).Some? && ItemOf(w).value.root == k
  }

  function CountQueued(work: seq<Item>, k: Key): nat {
    if |work| == 0 then 0 else One(work[0].root == k) + CountQueued(work[1..], k)
  }

  function CountHeld(workers: seq<Worker>, k: Key): nat {
    if |workers| == 0 then 0 else One(Has(workers[0], k)) + CountHeld(workers[1..], k)
  }

  lemma {:induction false} CountAppend(work: seq<Item>, item: Item, k: Key)
    ensures CountQueued(work + [item], k) == CountQueued(work, k) + One(item.root == k)
  {
    var all := work + [item];
    if |work| == 0 {
      assert all[1..] == [];
    } else {
      assert all[0] == work[0] && all[1..] == work[1..] + [item];
      CountAppend(work[1..], item, k);
    }
  }

  lemma {:induction false} CountUpdate(workers: seq<Worker>, w: nat, x: Worker, k: Key)
    requires w < |workers|
    ensures CountHeld(workers[w := x], k) + One(Has(workers[w], k)) == CountHeld(workers, k) + One(Has(x, k))
  {
    var all := workers[w := x];
    if w == 0 {
      assert all[1..] == workers[1..];
    } else {
      assert all[0] == workers[0] && all[1..] == workers[1..][w - 1 := x];
      CountUpdate(workers[1..], w - 1, x, k);
    }
  }

  lemma {:induction false} NoneQueued(work: seq<Item>, k: Key, i: nat)
    requires CountQueued(work, k) == 0 && i < |work|
    ensures work[i].root != k
  {
    if i > 0 {
      NoneQueued(work[1..], k, i - 1);
    }
  }

  lemma {:induction false} NoneHeld(workers: seq<Worker>, k: Key, w: nat)
    requires CountHeld(workers, k) == 0 && w < |workers|
    ensures !Has(workers[w], k)
  {
    if w > 0 {
      NoneHeld(workers[1..], k, w - 1);
    }
  }

  lemma {:induction false} CountIdle(n: nat, k: Key)
    ensures CountHeld(Idles(n), k) == 0
  {
    var all := Idles(n);
    if n > 0 {
      assert all[1..] == Idles(n - 1);
      CountIdle(n - 1, k);
    }
  }

  // ----- The barrier counts exactly what is queued or in a worker's hands.

  ghost predicate Counted(s: State) {
    forall k :: Group(s, k) == CountQueued(s.work, k) + CountHeld(s.workers, k)
  }

  lemma Enqueued(s: State, t: State, item: Item)
    requires Counted(s) && t.work == s.work + [item] && t.groups == Incremented(s.groups, item.root) && t.workers == s.workers
    ensures Counted(t)
  {
    hide CountQueued, CountHeld;
    forall k ensures Group(t, k) == CountQueued(t.work, k) + CountHeld(t.workers, k) {
      CountAppend(s.work, item, k);
    }
  }

  /** A worker moves on with the same item, or none. */
  lemma HeldSame(s: State, t: State, w: nat, x: Worker)
    requires Counted(s) && w < |s.workers| && t.workers == s.workers[w := x] && t.work == s.work && t.groups == s.groups
    requires forall k :: Has(x, k) == Has(s.workers[w], k)
    ensures Counted(t)
  {
    hide CountQueued, CountHeld;
    forall k ensures Group(t, k) == CountQueued(t.work, k) + CountHeld(t.workers, k) {
      CountUpdate(s.workers, w, x, k);
    }
  }

  lemma PopCounted(s: State, t: State, w: nat)
    requires Counted(s) && PopStep(s, t, w)
    ensures Counted(t)
  {
    forall k ensures Group(t, k) == CountQueued(t.work, k) + CountHeld(t.workers, k) {
      CountUpdate(s.workers, w, Taken(s.work[0]), k);
    }
  }

  lemma ReleaseCounted(s: State, t: State, w: nat)
    requires Counted(s) && ReleaseStep(s, t, w)
    ensures Counted(t)
  {
    hide CountQueued, CountHeld;
    forall k ensures Group(t, k) == CountQueued(t.work, k) + CountHeld(t.workers, k) {
      CountUpdate(s.workers, w, Idle, k);
      assert Group(s, k) == CountQueued(s.work, k) + CountHeld(s.workers, k);
    }
  }

  lemma {:induction false} RecoveredCounted(s: State, names: seq<Name>, faults: Faults)
    requires Listing(s, names) && Counted(s)
    ensures Counted(Recovered(s, names, faults)) && Recovered(s, names, faults).workers == s.workers
    decreases |names|
  {
    hide Counted;
    if |names| > 0 {
      var n := names[0];
      var t := RecoverOne(s, n, faults);
      if Readable(s, n, faults) {
        Enqueued(s, t, Item(n, s.files[n].header.root, s.files[n].body, |s.issued|));
      } else {
        SameCounts(s, t);
      }
      RecoveredCounted(t, names[1..], faults);
    }
  }

  lemma SameCounts(s: State, t: State)
    requires Counted(s) && t.work == s.work && t.groups == s.groups && t.workers == s.workers
    ensures Counted(t)
  {
    hide CountQueued, CountHeld;
    forall k ensures Group(t, k) == CountQueued(t.work, k) + CountHeld(t.workers, k) {
      assert Group(s, k) == CountQueued(s.work, k) + CountHeld(s.workers, k);
    }
  }

  lemma FreshCounted(s: State, n: nat)
    requires Counted(s) && s.workers == []
    ensures Counted(Started(s, n))
  {
    hide CountQueued;
    var t := Started(s, n);
    forall k ensures Group(t, k) == CountQueued(t.work, k) + CountHeld(t.workers, k) {
      CountIdle(n, k);
      assert Group(s, k) == CountQueued(s.work, k) + CountHeld(s.workers, k);
    }
  }

  lemma KeepsItem(s: State, t: State, hash: Body -> Name, l: Label)
    requires Counted(s) && Step(s, t, hash, l)
    requires l.Exit? || l.Open? || l.Write? || l.Remove? || l.Quarantine?
    ensures Counted(t)
  {
    hide Counted;
    HeldSame(s, t, l.w, t.workers[l.w]);
  }

  lemma CountedStep(s: State, t: State, hash: Body -> Name, l: Label)
    requires Counted(s) && Step(s, t, hash, l)
    ensures Counted(t)
  {
    hide Counted, Recovered;
    match l
    case Enqueue(c) =>
      Enqueued(s, t, Item(hash(s.clients[c].body), s.clients[c].root, s.clients[c].body, |s.issued|));
    case Pop(w) => PopCounted(s, t, w);
    case Exit(w) => KeepsItem(s, t, hash, l);
    case Open(w, ok, _) => KeepsItem(s, t, hash, l);
    case Write(w, ok) => KeepsItem(s, t, hash, l);
    case Remove(w, ok) => KeepsItem(s, t, hash, l);
    case Quarantine(w, ok) => KeepsItem(s, t, hash, l);
    case Release(w) => ReleaseCounted(s, t, w);
    case Crash => NothingCounted(t);
    case OpenInbox(names, faults, workers) =>
      RecoveredCounted(s, names, faults);
      FreshCounted(Recovered(s, names, faults), workers);
    case _ => SameCounts(s, t);
  }

  lemma NothingCounted(s: State)
    requires s.work == [] && s.groups == map[] && s.workers == []
    ensures Counted(s)
  {
  }

  // ----- Every commit's entry is queued, held by a worker, or finished.

  predicate Holds(w: Worker, ticket: nat) {
    ItemOf(w).Some? && ItemOf(w).value.ticket == ticket
  }

  predicate Queued(s: State, ticket: nat) {
    exists i :: 0 <= i < |s.work| && s.work[i].ticket == ticket
  }

  predicate Held(s: State, ticket: nat) {
    exists w :: 0 <= w < |s.workers| && Holds(s.workers[w], ticket)
  }

  /** An item is one that was issued. */
  predicate Genuine(s: State, item: Item) {
    item.ticket < |s.issued| && s.issued[item.ticket].root == item.root && s.issued[item.ticket].name == item.name
  }

  ghost predicate Ticketed(s: State) {
    && (forall n :: 0 <= n < |s.issued| ==> s.issued[n].ticket == n)
    && (forall n :: 0 <= n < |s.issued| ==> n in s.finished || Queued(s, n) || Held(s, n))
    && (forall i :: 0 <= i < |s.work| ==> Genuine(s, s.work[i]))
    && (forall w :: 0 <= w < |s.workers| && ItemOf(s.workers[w]).Some? ==> Genuine(s, ItemOf(s.workers[w]).value))
    && (forall c :: 0 <= c < |s.clients| && s.clients[c].Committed? ==>
          s.clients[c].ticket < |s.issued| && s.issued[s.clients[c].ticket].root == s.clients[c].root)
  }

  /** Nothing about tickets changes but what clients are doing. */
  lemma TicketsKept(s: State, t: State, c: nat, client: Client)
    requires Ticketed(s) && Moves(s, t, c, client)
    requires t.issued == s.issued && t.finished == s.finished && t.work == s.work && t.workers == s.workers
    requires !client.Committed?
    ensures Ticketed(t)
  {
    hide ItemOf;
    forall n | 0 <= n < |t.issued| ensures n in t.finished || Queued(t, n) || Held(t, n) {
      assert Queued(t, n) == Queued(s, n) && Held(t, n) == Held(s, n);
    }
  }

  lemma EnqueuedTicketed(s: State, t: State, item: Item)
    requires Ticketed(s) && item.ticket == |s.issued|
    requires t.issued == s.issued + [item] && t.work == s.work + [item] && t.workers == s.workers && t.finished == s.finished
    requires forall c :: 0 <= c < |t.clients| && t.clients[c].Committed? ==>
               || t.clients[c] == Committed(item.root, item.ticket)
               || (c < |s.clients| && t.clients[c] == s.clients[c])
    ensures Ticketed(t)
  {
    hide ItemOf;
    forall n | 0 <= n < |t.issued| ensures n in t.finished || Queued(t, n) || Held(t, n) {
      if n == item.ticket {
        assert t.work[|s.work|].ticket == n;
      } else {
        assert Held(t, n) == Held(s, n);
        if Queued(s, n) {
          var i :| 0 <= i < |s.work| && s.work[i].ticket == n;
          assert t.work[i].ticket == n;
        }
      }
    }
  }

  /** A worker keeps its item, or lets go of one whose ticket is then finished, or takes one off the queue. */
  lemma TurnTicketed(s: State, t: State, w: nat, x: Worker)
    requires Ticketed(s) && Turns(s, t, w, x) && t.issued == s.issued && t.clients == s.clients
    requires s.finished <= t.finished
    requires t.work == s.work || (s.work != [] && t.work == s.work[1..] && x == Taken(s.work[0]))
    requires ItemOf(x).Some? ==> Genuine(s, ItemOf(x).value)
    requires ItemOf(s.workers[w]).Some? ==>
               ItemOf(s.workers[w]).value.ticket in t.finished || Holds(x, ItemOf(s.workers[w]).value.ticket)
    ensures Ticketed(t)
  {
    forall n | 0 <= n < |t.issued| ensures n in t.finished || Queued(t, n) || Held(t, n) {
      if Queued(s, n) {
        var i :| 0 <= i < |s.work| && s.work[i].ticket == n;
        if t.work == s.work {
          assert t.work[i].ticket == n;
        } else if i == 0 {
          assert Holds(t.workers[w], n);
        } else {
          assert t.work[i - 1].ticket == n;
        }
      } else if Held(s, n) {
        var v :| 0 <= v < |s.workers| && Holds(s.workers[v], n);
        assert v != w ==> Holds(t.workers[v], n);
        assert v == w && n !in t.finished ==> Holds(t.workers[w], n);
      }
    }
  }

  lemma {:induction false} RecoveredTicketed(s: State, names: seq<Name>, faults: Faults)
    requires Listing(s, names) && Ticketed(s)
    ensures Ticketed(Recovered(s, names, faults)) && Recovered(s, names, faults).workers == s.workers
    decreases |names|
  {
    hide Ticketed;
    if |names| > 0 {
      var n := names[0];
      var t := RecoverOne(s, n, faults);
      if Readable(s, n, faults) {
        EnqueuedTicketed(s, t, Item(n, s.files[n].header.root, s.files[n].body, |s.issued|));
      } else {
        SameTickets(s, t);
      }
      RecoveredTicketed(t, names[1..], faults);
    }
  }

  lemma SameTickets(s: State, t: State)
    requires Ticketed(s) && t.issued == s.issued && t.finished == s.finished && t.work == s.work
    requires t.clients == s.clients && (t.workers == s.workers || (s.workers == [] && exists n: nat :: t.workers == Idles(n)))
    ensures Ticketed(t)
  {
    forall n | 0 <= n < |t.issued| ensures n in t.finished || Queued(t, n) || Held(t, n) {
      assert Queued(t, n) == Queued(s, n);
      assert Held(s, n) ==> t.workers == s.workers && Held(t, n);
    }
  }

  lemma TicketedClient(s: State, t: State, hash: Body -> Name, l: Label)
    requires Ticketed(s) && Step(s, t, hash, l)
    requires l.Stage? || l.GiveUp? || l.Stat? || l.Rename? || l.Sync? || l.Enqueue? || l.WaitReturn?
    ensures Ticketed(t)
  {
    hide Ticketed;
    match l
    case Enqueue(c) =>
      EnqueuedTicketed(s, t, Item(hash(s.clients[c].body), s.clients[c].root, s.clients[c].body, |s.issued|));
    case Stage(c, _, _) => TicketsKept(s, t, c, t.clients[c]);
    case GiveUp(c) => TicketsKept(s, t, c, t.clients[c]);
    case Stat(c) => TicketsKept(s, t, c, t.clients[c]);
    case Rename(c) => TicketsKept(s, t, c, t.clients[c]);
    case Sync(c) => TicketsKept(s, t, c, t.clients[c]);
    case WaitReturn(c) => TicketsKept(s, t, c, t.clients[c]);
  }

  lemma TicketedWorker(s: State, t: State, hash: Body -> Name, l: Label)
    requires Ticketed(s) && Step(s, t, hash, l)
    requires l.Pop? || l.Exit? || l.Open? || l.Write? || l.Remove? || l.Quarantine? || l.Release?
    ensures Ticketed(t)
  {
    TurnTicketed(s, t, l.w, t.workers[l.w]);
  }

  lemma TicketedStep(s: State, t: State, hash: Body -> Name, l: Label)
    requires Ticketed(s) && Step(s, t, hash, l)
    ensures Ticketed(t)
  {
    hide Ticketed, Recovered;
    match l
    case Close => SameTickets(s, t);
    case Crash => NoTickets(t);
    case OpenInbox(names, faults, workers) =>
      RecoveredTicketed(s, names, faults);
      SameTickets(Recovered(s, names, faults), t);
    case Pop(_) => TicketedWorker(s, t, hash, l);
    case Exit(_) => TicketedWorker(s, t, hash, l);
    case Open(_, _, _) => TicketedWorker(s, t, hash, l);
    case Write(_, _) => TicketedWorker(s, t, hash, l);
    case Remove(_, _) => TicketedWorker(s, t, hash, l);
    case Quarantine(_, _) => TicketedWorker(s, t, hash, l);
    case Release(_) => TicketedWorker(s, t, hash, l);
    case _ => TicketedClient(s, t, hash, l);
  }

  lemma NoTickets(s: State)
    requires s.work == [] && s.issued == [] && s.workers == []
    requires forall c :: 0 <= c < |s.clients| ==> s.clients[c] == Ready
    ensures Ticketed(s)
  {
  }

  /** When the count of a root is zero, every commit under that root that returned true, and every
      entry of it found by recovery, has been finished by a worker. */
  lemma BarrierMeansFinished(s: State, k: Key, n: nat)
    requires Counted(s) && Ticketed(s) && Group(s, k) == 0
    requires n < |s.issued| && s.issued[n].root == k
    ensures n in s.finished
  {
    hide CountQueued, CountHeld;
    assert CountQueued(s.work, k) == 0 && CountHeld(s.workers, k) == 0;
    if Queued(s, n) {
      var i :| 0 <= i < |s.work| && s.work[i].ticket == n;
      NoneQueued(s.work, k, i);
    }
    if Held(s, n) {
      var w :| 0 <= w < |s.workers| && Holds(s.workers[w], n);
      NoneHeld(s.workers, k, w);
    }
  }

  // ----- No accepted body is ever lost.

  /** Different bodies have different names. */
  ghost predicate CollisionFree(hash: Body -> Name) {
    forall a, b :: hash(a) == hash(b) ==> a == b
  }

  predicate InStore(s: State, b: Body) { b in s.stored }

  predicate InInbox(s: State, hash: Body -> Name, b: Body) {
    hash(b) in s.files && s.files[hash(b)].body == b
  }

  predicate InFailed(s: State, hash: Body -> Name, b: Body) {
    hash(b) in s.failed && s.failed[hash(b)].body == b
  }

  /** The body is in the store, or its entry is in the inbox or in `failed/`. */
  predicate Kept(s: State, hash: Body -> Name, b: Body) {
    InStore(s, b) || InInbox(s, hash, b) || InFailed(s, hash, b)
  }

  /** The same, and a crash cannot take the entry away. */
  predicate Durable(s: State, hash: Body -> Name, b: Body) {
    InStore(s, b) || (InInbox(s, hash, b) && hash(b) in s.synced) || InFailed(s, hash, b)
  }

  ghost predicate Addressed(s: State, hash: Body -> Name) {
    && (forall n :: n in s.files ==> hash(s.files[n].body) == n)
    && (forall n :: n in s.failed ==> hash(s.failed[n].body) == n)
    && (forall n :: n in s.gone ==> hash(s.gone[n].body) == n)
  }

  /** What was taken away is stored or in `failed/`. */
  ghost predicate GoneSafe(s: State) {
    forall n :: n in s.gone ==>
                  s.gone[n].body in s.stored || (n in s.failed && s.failed[n].body == s.gone[n].body)
  }

  ghost predicate WorkersSound(s: State, hash: Body -> Name) {
    && (forall w :: 0 <= w < |s.workers| && (s.workers[w].Opened? || s.workers[w].Written?) ==>
          hash(s.workers[w].item.body) == s.workers[w].item.name)
    && (forall w :: 0 <= w < |s.workers| && s.workers[w].Written? ==> s.workers[w].item.body in s.stored)
  }

  ghost predicate Sound(s: State, hash: Body -> Name) {
    && Addressed(s, hash) && WorkersSound(s, hash) && GoneSafe(s)
    && (forall c :: 0 <= c < |s.clients| && (s.clients[c].Renamed? || s.clients[c].Synced?) ==>
          Kept(s, hash, s.clients[c].body))
    && (forall n :: 0 <= n < |s.issued| ==> Kept(s, hash, s.issued[n].body))
    && (forall b :: b in s.accepted ==> Durable(s, hash, b))
  }

  /** Files that leave the inbox: either their body is stored, or the file is in `failed/`. */
  ghost predicate LeavesProperly(s: State, t: State) {
    && s.stored <= t.stored
    && (forall n :: n in s.files && n !in t.files ==>
          s.files[n].body in t.stored || (n in t.failed && t.failed[n].body == s.files[n].body))
    && (forall n :: n in s.files && n in t.files && n in s.synced ==> n in t.synced)
    && (forall n :: n in s.failed ==> n in t.failed && t.failed[n].body == s.failed[n].body)
  }

  /** Only what leaves the inbox is added to what is gone. */
  ghost predicate GoneProperly(s: State, t: State) {
    forall n :: n in t.gone ==>
                  || (n in s.gone && t.gone[n] == s.gone[n])
                  || (n in s.files && n !in t.files && t.gone[n] == s.files[n])
  }

  lemma GoneStaysSafe(s: State, t: State)
    requires GoneSafe(s) && GoneProperly(s, t) && LeavesProperly(s, t)
    ensures GoneSafe(t)
  {
  }

  /** A step that removes files only properly keeps every body. */
  lemma KeepsBody(s: State, t: State, hash: Body -> Name, b: Body)
    requires CollisionFree(hash) && Addressed(s, hash) && Addressed(t, hash) && LeavesProperly(s, t)
    ensures Kept(s, hash, b) ==> Kept(t, hash, b)
    ensures Durable(s, hash, b) ==> Durable(t, hash, b)
  {
    var n := hash(b);
    if InInbox(s, hash, b) && n in t.files {
      assert hash(t.files[n].body) == n;
    }
    if n in t.failed {
      assert hash(t.failed[n].body) == n;
    }
  }

  lemma KeepsAll(s: State, t: State, hash: Body -> Name)
    requires CollisionFree(hash) && Sound(s, hash) && Addressed(t, hash) && WorkersSound(t, hash) && LeavesProperly(s, t)
    requires GoneProperly(s, t)
    requires t.accepted == s.accepted && t.issued == s.issued
    requires forall c :: 0 <= c < |t.clients| && (t.clients[c].Renamed? || t.clients[c].Synced?) ==>
               c < |s.clients| && t.clients[c] == s.clients[c]
    ensures Sound(t, hash)
  {
    hide Kept, Durable, LeavesProperly, Addressed, GoneSafe, GoneProperly;
    GoneStaysSafe(s, t);
    forall b ensures (Kept(s, hash, b) ==> Kept(t, hash, b)) && (Durable(s, hash, b) ==> Durable(t, hash, b)) {
      KeepsBody(s, t, hash, b);
    }
  }

  lemma RenameSound(s: State, t: State, hash: Body -> Name, c: nat)
    requires CollisionFree(hash) && Sound(s, hash) && RenameStep(s, t, hash, c)
    ensures Sound(t, hash) && LeavesProperly(s, t)
  {
    hide Kept, Durable;
    assert Addressed(t, hash) && WorkersSound(t, hash) && LeavesProperly(s, t) && GoneProperly(s, t);
    var u := t.(clients := s.clients);
    KeepsAll(s, u, hash);
    assert Kept(t, hash, s.clients[c].body) by { NowKept(t, hash, s.clients[c].body); }
    forall b ensures Kept(u, hash, b) == Kept(t, hash, b) && Durable(u, hash, b) == Durable(t, hash, b) {
      SameKept(u, t, hash, b);
    }
  }

  lemma NowKept(t: State, hash: Body -> Name, b: Body)
    requires InInbox(t, hash, b)
    ensures Kept(t, hash, b)
  {
  }

  lemma SameKept(s: State, t: State, hash: Body -> Name, b: Body)
    requires s.files == t.files && s.failed == t.failed && s.stored == t.stored && s.synced == t.synced
    ensures Kept(s, hash, b) == Kept(t, hash, b) && Durable(s, hash, b) == Durable(t, hash, b)
  {
  }

  lemma SyncSound(s: State, t: State, hash: Body -> Name, c: nat)
    requires CollisionFree(hash) && Sound(s, hash) && SyncStep(s, t, c)
    ensures Sound(t, hash) && LeavesProperly(s, t)
  {
    forall b | Kept(s, hash, b) ensures Durable(t, hash, b) && Kept(t, hash, b) {
    }
    assert Addressed(t, hash) && WorkersSound(t, hash);
  }

  lemma EnqueueSound(s: State, t: State, hash: Body -> Name, c: nat)
    requires CollisionFree(hash) && Sound(s, hash) && EnqueueStep(s, t, hash, c)
    ensures Sound(t, hash) && LeavesProperly(s, t)
  {
    hide Kept, Durable;
    forall b ensures Kept(s, hash, b) == Kept(t, hash, b) && Durable(s, hash, b) == Durable(t, hash, b) {
      SameKept(s, t, hash, b);
    }
    assert Kept(s, hash, s.clients[c].body);
  }

  /** Worker steps; only removing and quarantining touch files. */
  lemma WorkerSound(s: State, t: State, hash: Body -> Name, l: Label)
    requires CollisionFree(hash) && Sound(s, hash) && Step(s, t, hash, l)
    requires l.Pop? || l.Exit? || l.Open? || l.Write? || l.Release?
    ensures Sound(t, hash) && LeavesProperly(s, t)
  {
    hide Kept, Durable, LeavesProperly, Addressed, WorkersSound;
    WorkerProper(s, t, hash, l);
    KeepsAll(s, t, hash);
  }

  lemma WorkerProper(s: State, t: State, hash: Body -> Name, l: Label)
    requires Addressed(s, hash) && WorkersSound(s, hash) && Step(s, t, hash, l)
    requires l.Pop? || l.Exit? || l.Open? || l.Write? || l.Release?
    ensures Addressed(t, hash) && WorkersSound(t, hash) && LeavesProperly(s, t)
  {
  }

  lemma RemoveSound(s: State, t: State, hash: Body -> Name, w: nat, ok: bool)
    requires CollisionFree(hash) && Sound(s, hash) && RemoveStep(s, t, w, ok)
    ensures Sound(t, hash) && LeavesProperly(s, t)
  {
    hide Kept, Durable, LeavesProperly, Addressed, WorkersSound;
    RemoveProper(s, t, hash, w, ok);
    KeepsAll(s, t, hash);
  }

  lemma RemoveProper(s: State, t: State, hash: Body -> Name, w: nat, ok: bool)
    requires CollisionFree(hash) && Addressed(s, hash) && WorkersSound(s, hash) && RemoveStep(s, t, w, ok)
    ensures Addressed(t, hash) && WorkersSound(t, hash) && LeavesProperly(s, t)
  {
    var item := s.workers[w].item;
    assert item.name in s.files ==> s.files[item.name].body == item.body;
  }

  lemma QuarantineSound(s: State, t: State, hash: Body -> Name, w: nat, ok: bool)
    requires CollisionFree(hash) && Sound(s, hash) && QuarantineStep(s, t, w, ok)
    ensures Sound(t, hash) && LeavesProperly(s, t)
  {
    hide Kept, Durable, LeavesProperly, Addressed, WorkersSound;
    QuarantineProper(s, t, hash, w, ok);
    KeepsAll(s, t, hash);
  }

  lemma QuarantineProper(s: State, t: State, hash: Body -> Name, w: nat, ok: bool)
    requires CollisionFree(hash) && Addressed(s, hash) && WorkersSound(s, hash) && QuarantineStep(s, t, w, ok)
    ensures Addressed(t, hash) && WorkersSound(t, hash) && LeavesProperly(s, t)
  {
    var n := s.workers[w].item.name;
    assert n in s.files && n in s.failed ==> hash(s.files[n].body) == hash(s.failed[n].body);
  }

  /** Recovery takes files away and adds none. */
  ghost predicate OnlyTakes(s: State, t: State) {
    forall n :: n in t.files ==> n in s.files && t.files[n] == s.files[n]
  }

  lemma RecoverOneProper(s: State, n: Name, faults: Faults, hash: Body -> Name)
    requires CollisionFree(hash) && Addressed(s, hash) && n in s.files
    ensures Addressed(RecoverOne(s, n, faults), hash)
    ensures LeavesProperly(s, RecoverOne(s, n, faults)) && OnlyTakes(s, RecoverOne(s, n, faults))
  {
    hide Incremented, LeavesProperly, OnlyTakes, Addressed;
    var t := RecoverOne(s, n, faults);
    if Readable(s, n, faults) || n in faults.stuck {
      NothingLeaves(s);
      SameFiles(s, s, t, hash);
    } else {
      MoveProper(s, t, n, hash);
    }
  }

  lemma MoveProper(s: State, t: State, n: Name, hash: Body -> Name)
    requires CollisionFree(hash) && Addressed(s, hash) && n in s.files
    requires t.files == s.files - {n} && t.failed == s.failed[n := s.files[n]]
    requires t.stored == s.stored && t.synced == s.synced - {n} && t.gone == Taking(s, n)
    ensures Addressed(t, hash) && LeavesProperly(s, t) && OnlyTakes(s, t)
  {
    assert n in s.failed ==> hash(s.files[n].body) == hash(s.failed[n].body);
  }

  lemma RecoverOneSound(s: State, n: Name, faults: Faults, hash: Body -> Name)
    requires CollisionFree(hash) && Sound(s, hash) && n in s.files && s.workers == []
    ensures Sound(RecoverOne(s, n, faults), hash) && RecoverOne(s, n, faults).workers == []
  {
    hide Kept, Durable, LeavesProperly, Addressed, GoneSafe, GoneProperly, Incremented;
    var t := RecoverOne(s, n, faults);
    RecoverOneProper(s, n, faults, hash);
    RecoverOneGone(s, n, faults);
    if Readable(s, n, faults) {
      assert InInbox(s, hash, s.files[n].body) by { EntryHere(s, s, n, hash); }
      NowKept(s, hash, s.files[n].body);
      IssueSound(s, t, hash);
    } else {
      KeepsAll(s, t, hash);
    }
  }

  lemma RecoverOneGone(s: State, n: Name, faults: Faults)
    requires n in s.files
    ensures GoneProperly(s, RecoverOne(s, n, faults))
  {
    hide Incremented;
  }

  /** Queueing one more entry whose body is kept. */
  lemma IssueSound(s: State, t: State, hash: Body -> Name)
    requires Sound(s, hash) && |t.issued| == |s.issued| + 1 && t.issued[..|s.issued|] == s.issued
    requires Kept(s, hash, t.issued[|s.issued|].body)
    requires t.files == s.files && t.failed == s.failed && t.stored == s.stored && t.synced == s.synced && t.gone == s.gone
    requires t.clients == s.clients && t.workers == s.workers && t.accepted == s.accepted
    ensures Sound(t, hash)
  {
    hide Kept, Durable;
    forall b ensures Kept(s, hash, b) == Kept(t, hash, b) && Durable(s, hash, b) == Durable(t, hash, b) {
      SameKept(s, t, hash, b);
    }
    forall i | 0 <= i < |t.issued| ensures Kept(t, hash, t.issued[i].body) {
      assert i < |s.issued| ==> t.issued[..|s.issued|][i] == t.issued[i];
    }
  }

  lemma SameFiles(s: State, t: State, u: State, hash: Body -> Name)
    requires LeavesProperly(s, t) && Addressed(t, hash)
    requires u.files == t.files && u.failed == t.failed && u.stored == t.stored && u.synced == t.synced && u.gone == t.gone
    ensures LeavesProperly(s, u) && Addressed(u, hash) && (OnlyTakes(s, t) ==> OnlyTakes(s, u))
  {
  }

  lemma EntryHere(s: State, t: State, n: Name, hash: Body -> Name)
    requires Addressed(s, hash) && n in s.files && t.files == s.files
    ensures InInbox(t, hash, s.files[n].body)
  {
  }

  lemma {:induction false} RecoveredSound(s: State, names: seq<Name>, faults: Faults, hash: Body -> Name)
    requires CollisionFree(hash) && Sound(s, hash) && Listing(s, names) && s.workers == []
    ensures Sound(Recovered(s, names, faults), hash) && Recovered(s, names, faults).workers == []
    ensures LeavesProperly(s, Recovered(s, names, faults)) && OnlyTakes(s, Recovered(s, names, faults))
    ensures Recovered(s, names, faults).accepted == s.accepted
    decreases |names|
  {
    hide LeavesProperly, OnlyTakes, WorkersSound, Kept, Durable, GoneSafe, Addressed, Incremented;
    if |names| > 0 {
      var t := RecoverOne(s, names[0], faults);
      RecoverOneSound(s, names[0], faults, hash);
      RecoverOneProper(s, names[0], faults, hash);
      RecoveredSound(t, names[1..], faults, hash);
      ProperTwice(s, t, Recovered(t, names[1..], faults));
    } else {
      NothingLeaves(s);
    }
  }

  lemma NothingLeaves(s: State)
    ensures LeavesProperly(s, s) && OnlyTakes(s, s)
  {
  }

  lemma ProperTwice(s: State, t: State, u: State)
    requires LeavesProperly(s, t) && LeavesProperly(t, u) && OnlyTakes(s, t) && OnlyTakes(t, u)
    ensures LeavesProperly(s, u) && OnlyTakes(s, u)
  {
  }

  /** After a crash everything that was durable is still there. */
  lemma CrashSound(s: State, t: State, hash: Body -> Name)
    requires CollisionFree(hash) && Sound(s, hash) && CrashStep(s, t)
    ensures Sound(t, hash)
  {
    assert Addressed(t, hash);
    forall b | Durable(s, hash, b) ensures Durable(t, hash, b) {
      var n := hash(b);
      assert n in t.files ==> hash(t.files[n].body) == n;
    }
  }

  /** A crash brings back only entries whose bodies are stored or were in `failed/`, so that dealing
      with them again loses nothing. */
  lemma CrashReturns(s: State, t: State, hash: Body -> Name, n: Name)
    requires Sound(s, hash) && CrashStep(s, t) && n in t.files && n !in s.files
    ensures t.files[n].body in t.stored || (n in s.failed && s.failed[n].body == t.files[n].body)
  {
  }

  lemma SoundStep(s: State, t: State, hash: Body -> Name, l: Label)
    requires CollisionFree(hash) && Sound(s, hash) && Step(s, t, hash, l)
    ensures Sound(t, hash)
    ensures l.Crash? || LeavesProperly(s, t)
  {
    hide Sound, LeavesProperly, Recovered;
    match l
    case Rename(c) => RenameSound(s, t, hash, c);
    case Sync(c) => SyncSound(s, t, hash, c);
    case Enqueue(c) => EnqueueSound(s, t, hash, c);
    case Remove(w, ok) => RemoveSound(s, t, hash, w, ok);
    case Quarantine(w, ok) => QuarantineSound(s, t, hash, w, ok);
    case Crash => CrashSound(s, t, hash);
    case OpenInbox(names, faults, workers) =>
      RecoveredSound(s, names, faults, hash);
      IdleSound(s, Recovered(s, names, faults), workers, hash);
    case Pop(_) => WorkerSound(s, t, hash, l);
    case Exit(_) => WorkerSound(s, t, hash, l);
    case Open(_, _, _) => WorkerSound(s, t, hash, l);
    case Write(_, _) => WorkerSound(s, t, hash, l);
    case Release(_) => WorkerSound(s, t, hash, l);
    case _ => QuietSound(s, t, hash, l);
  }

  lemma IdleSound(s: State, r: State, n: nat, hash: Body -> Name)
    requires Sound(r, hash) && LeavesProperly(s, r) && r.workers == []
    ensures Sound(Started(r, n), hash) && LeavesProperly(s, Started(r, n))
  {
    hide Kept, Durable;
    var t := Started(r, n);
    forall b ensures Kept(r, hash, b) == Kept(t, hash, b) && Durable(r, hash, b) == Durable(t, hash, b) {
      SameKept(r, t, hash, b);
    }
  }

  /** Steps that change nothing but a client, or the closed flag. */
  lemma QuietSound(s: State, t: State, hash: Body -> Name, l: Label)
    requires CollisionFree(hash) && Sound(s, hash) && Step(s, t, hash, l)
    requires l.Stage? || l.GiveUp? || l.Stat? || l.WaitReturn? || l.Close?
    ensures Sound(t, hash) && LeavesProperly(s, t)
  {
    hide Kept, Durable, LeavesProperly, Addressed, GoneSafe;
    NothingLeaves(s);
    SameFiles(s, s, t, hash);
    KeepsAll(s, t, hash);
  }

  // ----- What recovery does with every entry.

  /** An item for the entry was queued at position `from` or later. */
  predicate QueuedFrom(t: State, from: nat, n: Name, file: File) {
    exists i :: from <= i < |t.work| && t.work[i].name == n
                && file.header == Rooted(t.work[i].root) && t.work[i].body == file.body
  }

  /** Nothing but the named entries is touched, and the queue only grows. */
  ghost predicate Frames(s: State, t: State, names: seq<Name>) {
    && s.work <= t.work
    && (forall n :: n !in names ==> (n in t.files <==> n in s.files) && (n in t.left <==> n in s.left))
    && (forall n :: n !in names && n in s.files ==> t.files[n] == s.files[n])
    && (forall n :: n !in names && n in s.failed ==> n in t.failed && t.failed[n] == s.failed[n])
  }

  /** What happened to an unreadable entry. */
  ghost predicate Moved(s: State, t: State, faults: Faults, n: Name) {
    n in s.files &&
    if n in faults.stuck then n in t.files && n in t.left && t.files[n] == s.files[n]
    else n !in t.files && n in t.failed && t.failed[n] == s.files[n]
  }

  lemma RecoverOneFrames(s: State, n: Name, faults: Faults)
    requires n in s.files
    ensures Frames(s, RecoverOne(s, n, faults), [n])
  {
    hide Incremented;
  }

  lemma RecoverOneDoes(s: State, n: Name, faults: Faults)
    requires n in s.files
    ensures var t := RecoverOne(s, n, faults);
            if Readable(s, n, faults) then
              t.work == s.work + [Item(n, s.files[n].header.root, s.files[n].body, |s.issued|)] && t.files == s.files
            else t.work == s.work && Moved(s, t, faults, n)
  {
    hide Incremented;
  }

  lemma FramesTwice(s: State, t: State, u: State, n: Name, names: seq<Name>)
    requires Frames(s, t, [n]) && Frames(t, u, names)
    ensures Frames(s, u, [n] + names)
  {
    assert n in [n];
    forall i | 0 <= i < |s.work| ensures s.work[i] == u.work[i] {
      assert s.work[i] == t.work[i];
    }
    forall m | m !in [n] + names ensures m != n && m !in names {
      assert m in names ==> m in [n] + names;
    }
  }

  /** Recovery only adds to the queue, and touches no entry it was not given. */
  lemma {:induction false} RecoveredFrame(s: State, names: seq<Name>, faults: Faults)
    requires Listing(s, names)
    ensures Frames(s, Recovered(s, names, faults), names)
    decreases |names|
  {
    hide RecoverOne;
    if |names| > 0 {
      var u := RecoverOne(s, names[0], faults);
      StillListed(s, names, faults);
      RecoverOneFrames(s, names[0], faults);
      hide Frames;
      RecoveredFrame(u, names[1..], faults);
      FramesTwice(s, u, Recovered(u, names[1..], faults), names[0], names[1..]);
      assert [names[0]] + names[1..] == names;
    }
  }

  /** The entries still to come are as they were. */
  lemma LaterSame(s: State, names: seq<Name>, faults: Faults, n: Name)
    requires Listing(s, names) && n in names && n != names[0]
    ensures var u := RecoverOne(s, names[0], faults);
            Listing(u, names[1..]) && n in names[1..] && n in u.files && u.files[n] == s.files[n] && |s.work| <= |u.work|
  {
    hide RecoverOne;
    StillListed(s, names, faults);
    RecoverOneFrames(s, names[0], faults);
  }

  lemma FirstStays(s: State, names: seq<Name>, faults: Faults)
    requires Listing(s, names) && names != []
    ensures Listing(RecoverOne(s, names[0], faults), names[1..])
    ensures Frames(RecoverOne(s, names[0], faults), Recovered(s, names, faults), names[1..]) && names[0] !in names[1..]
  {
    hide RecoverOne, Frames;
    StillListed(s, names, faults);
    RecoveredFrame(RecoverOne(s, names[0], faults), names[1..], faults);
  }

  /** Every readable entry is queued, with its root and body, and stays in the directory. */
  lemma {:induction false} RecoveredQueues(s: State, names: seq<Name>, faults: Faults, n: Name)
    requires Listing(s, names) && n in names && Readable(s, n, faults)
    ensures var t := Recovered(s, names, faults);
            QueuedFrom(t, |s.work|, n, s.files[n]) && n in t.files && t.files[n] == s.files[n]
    decreases |names|
  {
    hide RecoverOne;
    var u, t := RecoverOne(s, names[0], faults), Recovered(s, names, faults);
    if n == names[0] {
      RecoverOneDoes(s, n, faults);
      FirstStays(s, names, faults);
      assert t.work[|s.work|] == u.work[|s.work|];
    } else {
      LaterSame(s, names, faults, n);
      RecoveredQueues(u, names[1..], faults, n);
    }
  }

  /** Every other entry is moved to `failed/`, or left if it cannot be moved. */
  lemma {:induction false} RecoveredMoves(s: State, names: seq<Name>, faults: Faults, n: Name)
    requires Listing(s, names) && n in names && !Readable(s, n, faults)
    ensures Moved(s, Recovered(s, names, faults), faults, n)
    decreases |names|
  {
    hide RecoverOne;
    if n == names[0] {
      RecoverOneDoes(s, n, faults);
      FirstStays(s, names, faults);
    } else {
      LaterSame(s, names, faults, n);
      RecoveredMoves(RecoverOne(s, names[0], faults), names[1..], faults, n);
    }
  }

  /** The items queued from position `from` on are for readable entries of the list, each once. */
  ghost predicate OnlyReadable(s: State, t: State, from: nat, names: seq<Name>, faults: Faults) {
    && (forall i :: from <= i < |t.work| ==> t.work[i].name in names && Readable(s, t.work[i].name, faults))
    && (forall i, j :: from <= i < j < |t.work| ==> t.work[i].name != t.work[j].name)
  }

  /** Nothing else is queued, and nothing twice. */
  lemma {:induction false} RecoveredOnly(s: State, names: seq<Name>, faults: Faults)
    requires Listing(s, names)
    ensures OnlyReadable(s, Recovered(s, names, faults), |s.work|, names, faults)
    decreases |names|
  {
    hide RecoverOne, Frames;
    if |names| > 0 {
      var n := names[0];
      var u, t := RecoverOne(s, n, faults), Recovered(s, names, faults);
      FirstStays(s, names, faults);
      RecoverOneDoes(s, n, faults);
      RecoveredOnly(u, names[1..], faults);
      RecoverOneFrames(s, n, faults);
      OnlyReadableCons(s, u, t, n, names, faults);
    }
  }

  lemma OnlyReadableCons(s: State, u: State, t: State, n: Name, names: seq<Name>, faults: Faults)
    requires names != [] && names[0] == n && n !in names[1..] && n in s.files
    requires Frames(s, u, [n]) && Frames(u, t, names[1..])
    requires OnlyReadable(u, t, |u.work|, names[1..], faults)
    requires if Readable(s, n, faults) then |u.work| == |s.work| + 1 && u.work[|s.work|].name == n else u.work == s.work
    ensures OnlyReadable(s, t, |s.work|, names, faults)
  {
    assert |u.work| > |s.work| ==> t.work[|s.work|] == u.work[|s.work|];
    forall i | |s.work| <= i < |t.work| ensures t.work[i].name in names && Readable(s, t.work[i].name, faults) {
      if i >= |u.work| {
        var m := t.work[i].name;
        assert m in names[1..] && m !in [n];
      }
    }
  }

  /** The entries of the directory after a recovery: the readable ones are queued, each once and with
      its own root and body, and nothing else is; the others are in `failed/`, or left in place if
      they could not be moved. */
  ghost predicate Accounted(s: State, t: State, names: seq<Name>, faults: Faults) {
    && s.work <= t.work
    && (forall n :: n in names && Readable(s, n, faults) ==> QueuedFrom(t, |s.work|, n, s.files[n]) && n in t.files)
    && OnlyReadable(s, t, |s.work|, names, faults)
    && (forall n :: n in names && n in s.files && !Readable(s, n, faults) ==> Moved(s, t, faults, n))
  }

  lemma RecoveredAccounted(s: State, names: seq<Name>, faults: Faults)
    requires Listing(s, names)
    ensures Accounted(s, Recovered(s, names, faults), names, faults)
  {
    hide Recovered, QueuedFrom, Moved, OnlyReadable;
    RecoveredFrame(s, names, faults);
    RecoveredOnly(s, names, faults);
    var t := Recovered(s, names, faults);
    forall n | n in names && Readable(s, n, faults) ensures QueuedFrom(t, |s.work|, n, s.files[n]) && n in t.files {
      RecoveredQueues(s, names, faults, n);
    }
    forall n | n in names && n in s.files && !Readable(s, n, faults) ensures Moved(s, t, faults, n) {
      RecoveredMoves(s, names, faults, n);
    }
  }

  /** After the inbox was opened, every entry of its directory is accounted for. */
  lemma OpenedAccounted(s: State, t: State, names: seq<Name>, faults: Faults, workers: nat)
    requires OpenInboxStep(s, t, names, faults, workers)
    ensures Accounted(s, t, names, faults) && forall n :: n in s.files ==> n in names
  {
    hide Recovered;
    RecoveredAccounted(s, names, faults);
  }

  // ----- No entry is orphaned.

  /** A worker has the entry in hand and is not done with it. */
  predicate Tends(w: Worker, n: Name) {
    (w.Taken? || w.Opened? || w.Written? || w.Failing?) && w.item.name == n
  }

  predicate QueuedName(s: State, n: Name) {
    exists i :: 0 <= i < |s.work| && s.work[i].name == n
  }

  predicate TendedTo(s: State, n: Name) {
    exists w :: 0 <= w < |s.workers| && Tends(s.workers[w], n)
  }

  /** A client has published the entry and is about to queue it. */
  predicate Announces(c: Client, hash: Body -> Name, n: Name) {
    (c.Renamed? || c.Synced?) && hash(c.body) == n
  }

  predicate Announced(s: State, hash: Body -> Name, n: Name) {
    exists c :: 0 <= c < |s.clients| && Announces(s.clients[c], hash, n)
  }

  /** Somebody will take care of the entry, or a failed call left it where it is. */
  predicate Attended(s: State, hash: Body -> Name, n: Name) {
    QueuedName(s, n) || TendedTo(s, n) || Announced(s, hash, n) || n in s.left
  }

  ghost predicate NoOrphans(s: State, hash: Body -> Name) {
    s.open ==> forall n :: n in s.files ==> Attended(s, hash, n)
  }

  lemma ClientAttends(s: State, t: State, hash: Body -> Name, l: Label, n: Name)
    requires Step(s, t, hash, l)
    requires l.Stage? || l.GiveUp? || l.Stat? || l.Rename? || l.Sync? || l.Enqueue? || l.WaitReturn?
    requires n in t.files && (n in s.files ==> Attended(s, hash, n))
    ensures Attended(t, hash, n)
  {
    hide Incremented;
    var c := l.c;
    if Announces(t.clients[c], hash, n) {
      assert Announced(t, hash, n);
    } else if Announced(s, hash, n) {
      var d :| 0 <= d < |s.clients| && Announces(s.clients[d], hash, n);
      if d != c {
        assert t.clients[d] == s.clients[d];
      } else if l.Enqueue? {
        assert t.work[|s.work|].name == n;
      }
    } else if QueuedName(s, n) {
      var i :| 0 <= i < |s.work| && s.work[i].name == n;
      assert t.work[i] == s.work[i];
    }
  }

  /** A worker moves on: what it had in hand and is not done with, it keeps, and what it takes comes
      off the queue. */
  lemma TurnAttends(s: State, t: State, hash: Body -> Name, w: nat, n: Name)
    requires w < |s.workers| == |t.workers| && Turns(s, t, w, t.workers[w]) && t.clients == s.clients && Attended(s, hash, n)
    requires n in s.left ==> n in t.left
    requires Tends(s.workers[w], n) ==> Tends(t.workers[w], n) || n in t.left
    requires t.work == s.work || (s.work != [] && t.work == s.work[1..] && Tends(t.workers[w], s.work[0].name))
    ensures Attended(t, hash, n)
  {
    hide Tends;
    if Tends(t.workers[w], n) {
      assert TendedTo(t, n);
    } else if TendedTo(s, n) {
      var v :| 0 <= v < |s.workers| && Tends(s.workers[v], n);
      assert v != w ==> t.workers[v] == s.workers[v];
    } else if QueuedName(s, n) {
      var i :| 0 <= i < |s.work| && s.work[i].name == n;
      assert if t.work == s.work then t.work[i] == s.work[i] else i > 0 && t.work[i - 1] == s.work[i];
    } else if Announced(s, hash, n) {
      assert Announced(t, hash, n);
    }
  }

  lemma WorkerAttends(s: State, t: State, hash: Body -> Name, l: Label, n: Name)
    requires Step(s, t, hash, l)
    requires l.Pop? || l.Exit? || l.Open? || l.Write? || l.Remove? || l.Quarantine? || l.Release?
    requires n in t.files && Attended(s, hash, n)
    ensures Attended(t, hash, n)
  {
    hide Decremented, Attended;
    TurnAttends(s, t, hash, l.w, n);
  }

  lemma OpenedAttends(s: State, t: State, hash: Body -> Name, names: seq<Name>, faults: Faults, workers: nat, n: Name)
    requires OpenInboxStep(s, t, names, faults, workers) && n in t.files
    ensures Attended(t, hash, n)
  {
    hide Recovered;
    OpenedAccounted(s, t, names, faults, workers);
    RecoveredFrame(s, names, faults);
    assert n in names && n in s.files;
  }

  /** Every step but a crash leaves each entry in somebody's care. */
  lemma NoOrphansStep(s: State, t: State, hash: Body -> Name, l: Label)
    requires NoOrphans(s, hash) && Step(s, t, hash, l)
    ensures NoOrphans(t, hash)
  {
    hide Attended, Recovered;
    if t.open {
      forall n | n in t.files ensures Attended(t, hash, n) {
        match l
        case Close => SameAttended(s, t, hash, n);
        case OpenInbox(names, faults, workers) => OpenedAttends(s, t, hash, names, faults, workers, n);
        case Pop(_) => WorkerAttends(s, t, hash, l, n);
        case Exit(_) => WorkerAttends(s, t, hash, l, n);
        case Open(_, _, _) => WorkerAttends(s, t, hash, l, n);
        case Write(_, _) => WorkerAttends(s, t, hash, l, n);
        case Remove(_, _) => WorkerAttends(s, t, hash, l, n);
        case Quarantine(_, _) => WorkerAttends(s, t, hash, l, n);
        case Release(_) => WorkerAttends(s, t, hash, l, n);
        case Crash =>
        case _ => ClientAttends(s, t, hash, l, n);
      }
    }
  }

  lemma SameAttended(s: State, t: State, hash: Body -> Name, n: Name)
    requires Attended(s, hash, n) && CloseStep(s, t)
    ensures Attended(t, hash, n)
  {
  }

  // ----- Closing drains the queue.

  /** Once a worker has left, what is still queued was queued after the inbox was closed. */
  ghost predicate Drained(s: State) {
    && s.cutoff <= |s.issued|
    && (Exited in s.workers ==> s.closed && forall i :: 0 <= i < |s.work| ==> s.work[i].ticket >= s.cutoff)
  }

  lemma DrainedStep(s: State, t: State, hash: Body -> Name, l: Label)
    requires Drained(s) && Step(s, t, hash, l)
    ensures Drained(t)
  {
    hide Drained, Step;
    if l.Pop? || l.Open? || l.Write? || l.Remove? || l.Quarantine? || l.Release? {
      DrainedWorker(s, t, hash, l);
    } else if l.Stage? || l.GiveUp? || l.Stat? || l.Rename? || l.Sync? || l.WaitReturn? {
      DrainedClient(s, t, hash, l);
    } else {
      DrainedOther(s, t, hash, l);
    }
  }

  lemma DrainedWorker(s: State, t: State, hash: Body -> Name, l: Label)
    requires Drained(s) && Step(s, t, hash, l)
    requires l.Pop? || l.Open? || l.Write? || l.Remove? || l.Quarantine? || l.Release?
    ensures Drained(t)
  {
    hide Drained, Decremented, Taking;
    WorkerDrained(s, t, l.w);
  }

  lemma DrainedClient(s: State, t: State, hash: Body -> Name, l: Label)
    requires Drained(s) && Step(s, t, hash, l)
    requires l.Stage? || l.GiveUp? || l.Stat? || l.Rename? || l.Sync? || l.WaitReturn?
    ensures Drained(t)
  {
    hide Drained;
    SameDrained(s, t);
  }

  lemma DrainedOther(s: State, t: State, hash: Body -> Name, l: Label)
    requires Drained(s) && Step(s, t, hash, l)
    requires l.Enqueue? || l.Exit? || l.Close? || l.Crash? || l.OpenInbox?
    ensures Drained(t)
  {
    hide Drained, Recovered, Incremented;
    match l
    case Enqueue(c) => EnqueueDrained(s, t, hash, c);
    case Exit(w) => ExitDrained(s, t, w);
    case Close => CloseDrained(s, t);
    case Crash => NobodyDrained(t);
    case OpenInbox(names, faults, workers) =>
      RecoveredCutoff(s, names, faults);
      OpenDrained(s, t, workers);
  }

  lemma SameDrained(s: State, t: State)
    requires Drained(s) && t.workers == s.workers && t.work == s.work && t.closed == s.closed
    requires t.cutoff == s.cutoff && t.issued == s.issued
    ensures Drained(t)
  {
  }

  lemma EnqueueDrained(s: State, t: State, hash: Body -> Name, c: nat)
    requires Drained(s) && EnqueueStep(s, t, hash, c)
    ensures Drained(t)
  {
  }

  lemma ExitDrained(s: State, t: State, w: nat)
    requires Drained(s) && ExitStep(s, t, w)
    ensures Drained(t)
  {
  }

  lemma CloseDrained(s: State, t: State)
    requires Drained(s) && CloseStep(s, t)
    ensures Drained(t)
  {
  }

  lemma NobodyDrained(t: State)
    requires t.workers == [] && t.cutoff == 0
    ensures Drained(t)
  {
  }

  lemma OpenDrained(s: State, t: State, workers: nat)
    requires Drained(s) && t.workers == Idles(workers) && t.cutoff == s.cutoff && |s.issued| <= |t.issued|
    ensures Drained(t)
  {
  }

  lemma WorkerDrained(s: State, t: State, w: nat)
    requires Drained(s) && w < |s.workers| && |t.workers| == |s.workers| && Turns(s, t, w, t.workers[w])
    requires t.workers[w] != Exited && t.closed == s.closed && t.cutoff == s.cutoff && t.issued == s.issued
    requires t.work == s.work || (s.work != [] && t.work == s.work[1..])
    ensures Drained(t)
  {
    if Exited in t.workers {
      var v :| 0 <= v < |t.workers| && t.workers[v] == Exited;
      assert s.workers[v] == Exited;
    }
  }

  lemma {:induction false} RecoveredCutoff(s: State, names: seq<Name>, faults: Faults)
    requires Listing(s, names)
    ensures Recovered(s, names, faults).cutoff == s.cutoff
    ensures |Recovered(s, names, faults).issued| >= |s.issued|
    decreases |names|
  {
    hide Incremented;
    if |names| > 0 {
      StillListed(s, names, faults);
      RecoveredCutoff(RecoverOne(s, names[0], faults), names[1..], faults);
    }
  }

  predicate AllExited(s: State) {
    s.workers != [] && forall w :: 0 <= w < |s.workers| ==> s.workers[w] == Exited
  }

  /** When all workers have left, every entry queued before the inbox was closed is finished. */
  lemma ExitedMeansFinished(s: State, n: nat)
    requires Drained(s) && Ticketed(s) && AllExited(s) && n < s.cutoff
    ensures n in s.finished
  {
    assert s.workers[0] == Exited;
    forall i | 0 <= i < |s.work| ensures s.work[i].ticket != n {
      assert s.work[i].ticket >= s.cutoff;
    }
    assert !Queued(s, n) && !Held(s, n);
  }

  // ----- Runs.

  /** A freshly installed or reopened inbox directory, with no thread running. */
  ghost predicate Init(s: State, hash: Body -> Name) {
    && s.work == [] && s.groups == map[] && s.workers == [] && s.issued == [] && s.finished == {} && s.accepted == {}
    && !s.open && s.left == {} && s.gone == map[] && s.cutoff == 0
    && Addressed(s, hash)
    && forall c :: 0 <= c < |s.clients| ==> s.clients[c] == Ready
  }

  ghost predicate Run(states: seq<State>, labels: seq<Label>, hash: Body -> Name) {
    && |states| == |labels| + 1 && Init(states[0], hash)
    && forall i :: 0 <= i < |labels| ==> Step(states[i], states[i + 1], hash, labels[i])
  }

  ghost predicate Inv(s: State, hash: Body -> Name) {
    Counted(s) && Ticketed(s) && Sound(s, hash) && NoOrphans(s, hash) && Drained(s)
  }

  /** In every state of every run the counts are exact, the tickets accounted for, the bodies kept. */
  lemma {:induction false} RunInv(states: seq<State>, labels: seq<Label>, hash: Body -> Name, i: nat)
    requires CollisionFree(hash) && Run(states, labels, hash) && i < |states|
    ensures Inv(states[i], hash)
  {
    hide Counted, Ticketed, Sound, NoOrphans, Drained, Step, Init;
    if i == 0 {
      InitInv(states[0], hash);
    } else {
      RunInv(states, labels, hash, i - 1);
      CountedStep(states[i - 1], states[i], hash, labels[i - 1]);
      TicketedStep(states[i - 1], states[i], hash, labels[i - 1]);
      SoundStep(states[i - 1], states[i], hash, labels[i - 1]);
      NoOrphansStep(states[i - 1], states[i], hash, labels[i - 1]);
      DrainedStep(states[i - 1], states[i], hash, labels[i - 1]);
    }
  }

  /** Once closed, an inbox stays closed with the same cutoff until a crash. */
  lemma {:induction false} CutoffKept(states: seq<State>, labels: seq<Label>, hash: Body -> Name, i: nat, j: nat)
    requires Run(states, labels, hash) && i <= j < |states| && states[i].closed && states[i].open
    requires forall k :: i <= k < j ==> labels[k] != Crash
    ensures states[j].closed && states[j].open && states[j].cutoff == states[i].cutoff
    decreases j
  {
    hide Recovered;
    if i < j {
      CutoffKept(states, labels, hash, i, j - 1);
      RunStep(states, labels, hash, j - 1);
    }
  }

  /** `close` drains: in every run, when all workers have left after an inbox was closed, every entry
      queued before that is finished. */
  lemma CloseDrains(states: seq<State>, labels: seq<Label>, hash: Body -> Name, i: nat, j: nat, n: nat)
    requires CollisionFree(hash) && Run(states, labels, hash) && i < j < |states|
    requires labels[i] == Close && !states[i].closed && states[i].open && n < |states[i].issued|
    requires AllExited(states[j]) && forall k :: i < k < j ==> labels[k] != Crash
    ensures n in states[j].finished
  {
    hide Counted, Sound, NoOrphans, Step, Init;
    CloseHere(states, labels, hash, i);
    CutoffKept(states, labels, hash, i + 1, j);
    RunInv(states, labels, hash, j);
    ExitedMeansFinished(states[j], n);
  }

  lemma CloseHere(states: seq<State>, labels: seq<Label>, hash: Body -> Name, i: nat)
    requires Run(states, labels, hash) && i < |labels| && labels[i] == Close && !states[i].closed
    ensures CloseStep(states[i], states[i + 1])
  {
    RunStep(states, labels, hash, i);
  }

  lemma InitInv(s: State, hash: Body -> Name)
    requires Init(s, hash)
    ensures Inv(s, hash)
  {
    NothingCounted(s);
    NoTickets(s);
  }

  /** In every interleaving, a wait after a commit that returned true returns only once a worker has
      finished that entry, and its body is then in the store, in the inbox or in `failed/`. */
  lemma WaitMeansFinished(states: seq<State>, labels: seq<Label>, hash: Body -> Name, i: nat)
    requires CollisionFree(hash) && Run(states, labels, hash) && i < |labels| && labels[i].WaitReturn?
    ensures var s, c := states[i], labels[i].c;
            && c < |s.clients| && s.clients[c].Committed?
            && s.clients[c].ticket in s.finished
            && s.clients[c].ticket < |s.issued| && Kept(s, hash, s.issued[s.clients[c].ticket].body)
  {
    hide Counted, Kept;
    RunInv(states, labels, hash, i);
    assert WaitReturnStep(states[i], states[i + 1], labels[i].c) by { RunStep(states, labels, hash, i); }
    var s, c := states[i], labels[i].c;
    BarrierMeansFinished(s, s.clients[c].root, s.clients[c].ticket);
  }

  lemma RunStep(states: seq<State>, labels: seq<Label>, hash: Body -> Name, i: nat)
    requires Run(states, labels, hash) && i < |labels|
    ensures Step(states[i], states[i + 1], hash, labels[i])
  {
  }

  lemma {:induction false} AcceptedGrows(states: seq<State>, labels: seq<Label>, hash: Body -> Name, i: nat, j: nat)
    requires Run(states, labels, hash) && i <= j < |states|
    ensures states[i].accepted <= states[j].accepted
    decreases j
  {
    if i < j {
      AcceptedGrows(states, labels, hash, i, j - 1);
      RunStep(states, labels, hash, j - 1);
      AcceptedStep(states[j - 1], states[j], hash, labels[j - 1]);
    }
  }

  lemma AcceptedStep(s: State, t: State, hash: Body -> Name, l: Label)
    requires Step(s, t, hash, l)
    ensures s.accepted <= t.accepted
  {
    hide Recovered;
    if l.OpenInbox? {
      RecoveredAccepted(s, l.names, l.faults);
    }
  }

  lemma {:induction false} RecoveredAccepted(s: State, names: seq<Name>, faults: Faults)
    requires Listing(s, names)
    ensures Recovered(s, names, faults).accepted == s.accepted
    decreases |names|
  {
    if |names| > 0 {
      RecoveredAccepted(RecoverOne(s, names[0], faults), names[1..], faults);
    }
  }

  /** A body once accepted is, in every later state and across every crash, in the store, durably in
      the inbox, or in `failed/`. */
  lemma AcceptedSurvives(states: seq<State>, labels: seq<Label>, hash: Body -> Name, i: nat, j: nat, b: Body)
    requires CollisionFree(hash) && Run(states, labels, hash) && i <= j < |states| && b in states[i].accepted
    ensures Durable(states[j], hash, b)
  {
    hide Run, Durable;
    AcceptedGrows(states, labels, hash, i, j);
    RunInv(states, labels, hash, j);
  }

  /** While the inbox is open, an accepted body is in the store or in `failed/`, or its entry is
      durably there and queued, in a worker's hands, about to be queued, or left by a failed call. */
  lemma AcceptedAttended(states: seq<State>, labels: seq<Label>, hash: Body -> Name, i: nat, j: nat, b: Body)
    requires CollisionFree(hash) && Run(states, labels, hash) && i <= j < |states| && b in states[i].accepted
    requires states[j].open
    ensures var s := states[j];
            || InStore(s, b) || InFailed(s, hash, b)
            || (InInbox(s, hash, b) && hash(b) in s.synced && Attended(s, hash, hash(b)))
  {
    hide Run, Attended;
    AcceptedSurvives(states, labels, hash, i, j, b);
    RunInv(states, labels, hash, j);
  }

  /** An entry file leaves the inbox only after its body was stored or by a move to `failed/`; a crash
      takes only what was never synced. */
  lemma EntryLeavesOnly(states: seq<State>, labels: seq<Label>, hash: Body -> Name, i: nat, n: Name)
    requires CollisionFree(hash) && Run(states, labels, hash) && i < |labels|
    requires n in states[i].files && n !in states[i + 1].files
    ensures var s, t := states[i], states[i + 1];
            || s.files[n].body in t.stored
            || (n in t.failed && t.failed[n].body == s.files[n].body)
            || (labels[i] == Crash && n !in s.synced)
  {
    hide Counted, Ticketed, Sound, NoOrphans, Drained, Step, Init;
    RunInv(states, labels, hash, i);
    RunStep(states, labels, hash, i);
    SoundStep(states[i], states[i + 1], hash, labels[i]);
    if labels[i] == Crash {
      CrashTakes(states[i], states[i + 1], n);
    }
  }

  /** An entry comes into the inbox only by a commit's rename, or by a crash that undoes the removal of
      one whose body is stored or was in `failed/`. */
  lemma EntryComesOnly(states: seq<State>, labels: seq<Label>, hash: Body -> Name, i: nat, n: Name)
    requires CollisionFree(hash) && Run(states, labels, hash) && i < |labels|
    requires n !in states[i].files && n in states[i + 1].files
    ensures var s, t := states[i], states[i + 1];
            || (labels[i].Rename? && labels[i].c < |s.clients| && s.clients[labels[i].c].Statted?
                && t.files[n] == File(Rooted(s.clients[labels[i].c].root), s.clients[labels[i].c].body))
            || (labels[i] == Crash
                && (t.files[n].body in t.stored || (n in s.failed && s.failed[n].body == t.files[n].body)))
  {
    hide Counted, Ticketed, Sound, NoOrphans, Drained, Init, Recovered;
    RunInv(states, labels, hash, i);
    RunStep(states, labels, hash, i);
    var s, t, l := states[i], states[i + 1], labels[i];
    if l == Crash {
      CrashReturns(s, t, hash, n);
    } else if l.OpenInbox? {
      RecoveredSound(s, l.names, l.faults, hash);
    }
  }

  lemma CrashTakes(s: State, t: State, n: Name)
    requires CrashStep(s, t) && n in s.files && n !in t.files
    ensures n !in s.synced
  {
  }

  // ----- The critical sections as the threads execute them.

  /** `State` under its lock. */
  class Shared {
    var work: seq<Item>
    var groups: map<Key, nat>
    var closed: bool

    constructor ()
      ensures work == [] && groups == map[] && !closed
    {
      work, groups, closed := [], map[], false;
    }

    /** This object holds what a state of the protocol says it holds. */
    predicate Is(s: State)
      reads this
    {
      work == s.work && groups == s.groups && closed == s.closed
    }

    /** The end of `commit`. */
    method Push(item: Item, ghost s: State, ghost t: State, ghost hash: Body -> Name, ghost c: nat)
      requires Is(s) && EnqueueStep(s, t, hash, c)
      requires item == Item(hash(s.clients[c].body), s.clients[c].root, s.clients[c].body, |s.issued|)
      modifies this
      ensures Is(t)
    {
      var n := if item.root in groups then groups[item.root] else 0;
      groups := groups[item.root := n + 1];
      work := work + [item];
    }

    /** A worker that finds the queue empty would wait, or leave if the inbox is closed. */
    method Take(ghost s: State, ghost t: State, ghost w: nat) returns (item: Item)
      requires Is(s) && PopStep(s, t, w)
      modifies this
      ensures Is(t) && t.workers[w] == Taken(item)
    {
      item := work[0];
      work := work[1..];
    }

    /** The end of a worker's round. */
    method Release(item: Item, ghost s: State, ghost t: State, ghost w: nat)
      requires Is(s) && ReleaseStep(s, t, w) && s.workers[w].item == item
      modifies this
      ensures Is(t)
    {
      if item.root in groups {
        if groups[item.root] > 1 {
          groups := groups[item.root := groups[item.root] - 1];
        } else {
          groups := groups - {item.root};
        }
      }
    }

    /** The test of `wait_for`: it goes on exactly when the step is enabled. */
    method MayReturn(root: Key, ghost s: State) returns (yes: bool)
      requires Is(s)
      ensures yes == (Group(s, root) == 0)
    {
      var n := if root in groups then groups[root] else 0;
      return n == 0;
    }
  }

  /** `recover`: one directory entry after the other. The readable ones are queued and the others
      moved. */
  method Recover(s: State, names: seq<Name>, faults: Faults) returns (t: State)
    requires Listing(s, names)
    ensures t == Recovered(s, names, faults) && Accounted(s, t, names, faults)
  {
    hide RecoverOne, Accounted;
    RecoveredAccounted(s, names, faults);
    t := s;
    assert names[0..] == names;
    for i := 0 to |names|
      invariant Listing(t, names[i..]) && Recovered(t, names[i..], faults) == Recovered(s, names, faults)
    {
      assert names[i..][1..] == names[i + 1..] && names[i..][0] == names[i];
      assert Listing(RecoverOne(t, names[i], faults), names[i + 1..]) by { StillListed(t, names[i..], faults); }
      t := RecoverOne(t, names[i], faults);
    }
  }

  lemma StillListed(s: State, names: seq<Name>, faults: Faults)
    requires Listing(s, names) && names != []
    ensures Listing(RecoverOne(s, names[0], faults), names[1..])
  {
  }
}
