/** The per-router write locks of core/mikrotik_api.py (`_is_write_command`,
    `_get_cmd_lock` and the locking around `_execute_locked`), as a machine whose
    steps are those of the threads. */
module WriteLocks {

  import opened Basics

  type Key = string
  type Tid = nat
  type Lock = nat

  // ---- which commands are writes ---------------------------------------

  const READ_VERBS: set<string> := {"print", "get", "monitor", "listen", "export"}

  function Lower(c: char): char {
    if 'A' <= c <= 'Z' then (c as int + 32) as char else c
  }

  function ToLower(s: string): string {
    if s == "" then "" else [Lower(s[0])] + ToLower(s[1..])
  }

  /** Lower-casing changes the capital letters, to the small ones, and nothing else. */
  lemma {:induction false} ToLowerAt(s: string, i: nat)
    requires i < |s|
    ensures |ToLower(s)| == |s|
    ensures var (c, d) := (s[i], ToLower(s)[i]);
            if 'A' <= c <= 'Z' then d as int - 'a' as int == c as int - 'A' as int else d == c
  {
    if i > 0 {
      ToLowerAt(s[1..], i - 1);
    } else if |s| > 1 {
      ToLowerAt(s[1..], 0);
    }
  }

  /** What follows the last slash. */
  function LastSegment(s: string): string {
    if s == "" then ""
    else
      var rest := LastSegment(s[1..]);
      if '/' in s[1..] || s[0] == '/' then rest else s
  }

  function Verb(command: string): string {
    ToLower(Strip(LastSegment(command)))
  }

  predicate IsWriteCommand(command: string) { Verb(command) !in READ_VERBS }

  /** Only the last segment of the path decides. */
  lemma {:induction false} PathDoesNotMatter(path: string, verb: string)
    requires '/' !in verb
    ensures LastSegment(path + "/" + verb) == verb
    ensures IsWriteCommand(path + "/" + verb) == IsWriteCommand(verb)
  {
    var s := path + "/" + verb;
    if path == "" {
      assert s[1..] == verb;
    } else {
      assert s[1..] == path[1..] + "/" + verb;
      assert s[1..][|path| - 1] == '/';
      PathDoesNotMatter(path[1..], verb);
    }
  }

  lemma {:induction false} SegmentItself(s: string)
    requires '/' !in s
    ensures LastSegment(s) == s
  {
    if s != "" {
      SegmentItself(s[1..]);
    }
  }

  /** The five read verbs. */
  predicate IsReadVerb(v: string) {
    v == "print" || v == "get" || v == "monitor" || v == "listen" || v == "export"
  }

  lemma ReadVerbsAre(v: string)
    ensures v in READ_VERBS <==> IsReadVerb(v)
  {
  }

  lemma VerbOf(left: string, verb: string, right: string)
    requires AllBlank(left) && AllBlank(right) && '/' !in verb
    requires verb != "" && !IsSpace(verb[0]) && !IsSpace(verb[|verb| - 1])
    ensures Verb(left + (verb + right)) == ToLower(verb)
  {
    SegmentItself(left + (verb + right));
    StripOf(left, verb, right);
  }

  /** Nor do blanks around the verb, or its case. */
  lemma BlanksAndCaseDoNotMatter(left: string, verb: string, right: string)
    requires AllBlank(left) && AllBlank(right) && '/' !in verb
    requires verb != "" && !IsSpace(verb[0]) && !IsSpace(verb[|verb| - 1])
    ensures IsWriteCommand(left + (verb + right)) <==> !IsReadVerb(ToLower(verb))
  {
    VerbOf(left, verb, right);
    ReadVerbsAre(ToLower(verb));
  }

  // ---- the threads ------------------------------------------------------

  /** Where a thread is: outside, waiting for its router's lock, or executing. */
  datatype Pc =
    | Outside
    | Waiting(key: Key, command: string, lock: Lock)
    | Executing(key: Key, command: string, held: Option<Lock>)

  datatype State = State(
    locks: map<Key, Lock>,
    made: nat,
    owner: map<Lock, Tid>,
    threads: map<Tid, Pc>
  )

  const START: State := State(map[], 0, map[], map[])

  datatype Step =
    | Begin(t: Tid, key: Key, command: string)
    | Acquire(t: Tid)
    | Work(t: Tid)                     // an attempt, a retry, a sleep
    | Finish(t: Tid)

  function PcOf(s: State, t: Tid): Pc { if t in s.threads then s.threads[t] else Outside }

  /** `_get_cmd_lock`: makes the router's lock on first use. */
  function WithLock(s: State, key: Key): State {
    if key in s.locks then s else s.(locks := s.locks[key := s.made], made := s.made + 1)
  }

  /** A lock is re-entrant: its owner may take it again. */
  predicate Available(s: State, t: Tid, lock: Lock) { lock !in s.owner || s.owner[lock] == t }

  predicate Enabled(s: State, e: Step) {
    match e
    case Begin(t, _, _) => PcOf(s, t).Outside?
    case Acquire(t) => PcOf(s, t).Waiting? && Available(s, t, PcOf(s, t).lock)
    case Work(t) => PcOf(s, t).Executing?
    case Finish(t) => PcOf(s, t).Executing?
  }

  function Go(s: State, t: Tid, pc: Pc): State { s.(threads := s.threads[t := pc]) }

  function Next(s: State, e: Step): State
    requires Enabled(s, e)
  {
    match e
    case Begin(t, key, command) =>
      if IsWriteCommand(command) then
        var d := WithLock(s, key);
        Go(d, t, Waiting(key, command, d.locks[key]))
      else Go(s, t, Executing(key, command, None))
    case Acquire(t) =>
      var pc := PcOf(s, t);
      Go(s.(owner := s.owner[pc.lock := t]), t, Executing(pc.key, pc.command, Some(pc.lock)))
    case Work(_) => s
    case Finish(t) =>
      (match PcOf(s, t).held
       case None => Go(s, t, Outside)
       case Some(l) => Go(s.(owner := s.owner - {l}), t, Outside))
  }

  predicate Legal(s: State, es: seq<Step>)
    decreases es
  {
    es == [] || (Enabled(s, es[0]) && Legal(Next(s, es[0]), es[1..]))
  }

  function Run(s: State, es: seq<Step>): State
    requires Legal(s, es)
    decreases es
  {
    if es == [] then s else Run(Next(s, es[0]), es[1..])
  }

  /** The thread is executing a write on the router. */
  predicate Writing(s: State, t: Tid, key: Key) {
    var pc := PcOf(s, t);
    pc.Executing? && pc.key == key && IsWriteCommand(pc.command)
  }

  predicate LocksDistinct(s: State) {
    && (forall k :: k in s.locks ==> s.locks[k] < s.made)
    && (forall j, k :: j in s.locks && k in s.locks && s.locks[j] == s.locks[k] ==> j == k)
  }

  /** A thread waits for, or holds, exactly the lock of its router. */
  predicate InPlace(s: State, t: Tid) {
    match PcOf(s, t)
    case Outside => true
    case Waiting(key, command, l) => IsWriteCommand(command) && key in s.locks && s.locks[key] == l
    case Executing(key, command, Some(l)) =>
      IsWriteCommand(command) && key in s.locks && s.locks[key] == l && l in s.owner && s.owner[l] == t
    case Executing(_, command, None) => !IsWriteCommand(command)
  }

  predicate OwnerHolds(s: State, l: Lock) {
    l in s.owner ==> PcOf(s, s.owner[l]).Executing? && PcOf(s, s.owner[l]).held == Some(l)
  }

  ghost predicate Inv(s: State) {
    LocksDistinct(s) && (forall t: Tid :: InPlace(s, t)) && (forall l: Lock :: OwnerHolds(s, l))
  }

  lemma LocksStayDistinct(s: State, e: Step)
    requires LocksDistinct(s) && Enabled(s, e)
    ensures LocksDistinct(Next(s, e))
  {
  }

  lemma StaysInPlace(s: State, e: Step, t: Tid)
    requires Inv(s) && Enabled(s, e)
    ensures InPlace(Next(s, e), t)
  {
    assert InPlace(s, e.t) && InPlace(s, t);
    if e.Acquire? {
      assert OwnerHolds(s, PcOf(s, e.t).lock);
    }
  }

  lemma OwnersStillHold(s: State, e: Step, l: Lock)
    requires Inv(s) && Enabled(s, e)
    ensures OwnerHolds(Next(s, e), l)
  {
    assert InPlace(s, e.t) && OwnerHolds(s, l);
  }

  lemma NextInv(s: State, e: Step)
    requires Inv(s) && Enabled(s, e)
    ensures Inv(Next(s, e))
  {
    LocksStayDistinct(s, e);
    forall t: Tid ensures InPlace(Next(s, e), t) {
      StaysInPlace(s, e, t);
    }
    forall l: Lock ensures OwnerHolds(Next(s, e), l) {
      OwnersStillHold(s, e, l);
    }
  }

  lemma {:induction false} RunInv(s: State, es: seq<Step>)
    requires Inv(s) && Legal(s, es)
    ensures Inv(Run(s, es))
    decreases es
  {
    if es != [] {
      NextInv(s, es[0]);
      RunInv(Next(s, es[0]), es[1..]);
    }
  }

  /** Two writes on one router never overlap, in any interleaving. */
  lemma WritesAreSerialized(es: seq<Step>, t: Tid, u: Tid, key: Key)
    requires Legal(START, es)
    requires Writing(Run(START, es), t, key) && Writing(Run(START, es), u, key)
    ensures t == u
  {
    RunInv(START, es);
    var s := Run(START, es);
    assert InPlace(s, t) && InPlace(s, u);
  }

  /** A router's lock, once made, is never replaced. */
  lemma {:induction false} LockIsForever(s: State, es: seq<Step>, key: Key)
    requires Legal(s, es) && key in s.locks
    ensures key in Run(s, es).locks && Run(s, es).locks[key] == s.locks[key]
    decreases es
  {
    if es != [] {
      LockIsForever(Next(s, es[0]), es[1..], key);
    }
  }

  /** A waiting writer is held up exactly while somebody else writes to the same
      router: reads and other routers never block it. */
  lemma BlockedIffSameRouterWritten(es: seq<Step>, t: Tid)
    requires Legal(START, es) && PcOf(Run(START, es), t).Waiting?
    ensures var s := Run(START, es);
            !Enabled(s, Acquire(t)) <==> exists u: Tid :: u != t && Writing(s, u, PcOf(s, t).key)
  {
    RunInv(START, es);
    var s := Run(START, es);
    var pc := PcOf(s, t);
    assert InPlace(s, t) && OwnerHolds(s, pc.lock);
    if !Enabled(s, Acquire(t)) {
      var u := s.owner[pc.lock];
      assert InPlace(s, u);
      assert Writing(s, u, pc.key);
    }
    if u: Tid :| u != t && Writing(s, u, pc.key) {
      assert InPlace(s, u);
    }
  }

  /** In no state does a thread wait for a lock on behalf of a read: outside, it may begin
      one and then executes at once, taking no lock; inside, it may go on and finish,
      whatever the other threads hold. */
  lemma ReadsNeverWait(es: seq<Step>, t: Tid)
    requires Legal(START, es)
    ensures var (s, pc) := (Run(START, es), PcOf(Run(START, es), t));
            && (!pc.Outside? && !IsWriteCommand(pc.command) ==> Enabled(s, Work(t)) && Enabled(s, Finish(t)))
            && (pc.Outside? ==>
                  forall key, command :: !IsWriteCommand(command) ==>
                    && Enabled(s, Begin(t, key, command))
                    && PcOf(Next(s, Begin(t, key, command)), t).Executing?
                    && Next(s, Begin(t, key, command)).owner == s.owner)
  {
    RunInv(START, es);
    assert InPlace(Run(START, es), t);
  }

  /** In every state only writes wait, and a thread owns a lock exactly while it executes
      a write on the router whose lock it is. */
  lemma OnlyWritesLock(es: seq<Step>, t: Tid, l: Lock)
    requires Legal(START, es)
    ensures var (s, pc) := (Run(START, es), PcOf(Run(START, es), t));
            && (pc.Waiting? ==> IsWriteCommand(pc.command))
            && (l in s.owner && s.owner[l] == t <==>
                  pc.Executing? && IsWriteCommand(pc.command) && pc.key in s.locks && s.locks[pc.key] == l)
  {
    RunInv(START, es);
    var s := Run(START, es);
    assert InPlace(s, t) && OwnerHolds(s, l);
  }

  // ---- the code ---------------------------------------------------------

  class CommandLocks {
    var cmdLocks: map<Key, Lock>
    var made: nat

    constructor ()
      ensures cmdLocks == map[] && made == 0
    {
      cmdLocks, made := map[], 0;
    }

    /** `_get_cmd_lock`. */
    method GetCmdLock(key: Key) returns (lock: Lock)
      modifies this
      ensures var d := WithLock(State(old(cmdLocks), old(made), map[], map[]), key);
              cmdLocks == d.locks && made == d.made
      ensures key in cmdLocks && lock == cmdLocks[key]
    {
      if key !in cmdLocks {
        cmdLocks := cmdLocks[key := made];
        made := made + 1;
      }
      lock := cmdLocks[key];
    }
  }
}
