/** Batches of hotspot cards (core/hotspot_manager.py): unique random usernames, card
    preparation, and the chunked insertion. */
module Cards {

  import opened Basics
  import opened Decimal
  import opened Environment
  import opened FiniteSets

  const MAX_ATTEMPTS: nat := 100
  const CHUNK_SIZE: nat := 50

  datatype CardSystem = DifferentCredentials | SameCredentials | EmptyPassword

  datatype Card = Card(
    username: string, password: string, cardNumber: nat,
    profile: string, limitUptime: string, limitBytes: string, comment: string
  )

  /** The limits that all cards of a batch share. */
  datatype Batch = Batch(profile: string, limitUptime: string, limitBytes: string, comment: string)

  type Params = map<string, string>

  // ---- names ---------------------------------------------------------------

  /** How often `range(n)` goes round: not at all for a negative n. */
  function Count(n: int): nat { if n > 0 then n else 0 }

  /** `length` random digits, drawn from position `at` of the source. */
  function Digits(source: Script<nat>, at: nat, length: nat): (s: string)
    ensures |s| == length && AllDigits(s)
  {
    if length == 0 then "" else Digits(source, at, length - 1) + [DigitChar(source.At(at + length - 1) % 10)]
  }

  lemma {:induction false} DigitsAt(source: Script<nat>, at: nat, length: nat, i: nat)
    requires i < length
    ensures Digits(source, at, length)[i] == ('0' as int + source.At(at + i) % 10) as char
  {
    if i < length - 1 {
      DigitsAt(source, at, length - 1, i);
    }
  }

  /** The first of `tries` drawn names that is free, and where the source then is. */
  function FirstFree(source: Script<nat>, at: nat, prefix: string, length: nat, taken: set<string>, tries: nat)
    : Option<(string, nat)>
    decreases tries
  {
    if tries == 0 then Option.None
    else
      var name := prefix + Digits(source, at, length);
      if name !in taken then Option.Some((name, at + length))
      else FirstFree(source, at + length, prefix, length, taken, tries - 1)
  }

  /** The names a batch draws from. */
  predicate InPool(name: string, prefix: string, length: nat) {
    prefix <= name && |name| == |prefix| + length && AllDigits(name[|prefix|..])
  }

  /** The k-th name drawn after `at`. */
  function NthName(source: Script<nat>, at: nat, prefix: string, length: nat, k: nat): string {
    prefix + Digits(source, Draw(at, length, k), length)
  }

  lemma {:induction false} FirstFreeIsFree(source: Script<nat>, at: nat, prefix: string, length: nat,
                                           taken: set<string>, tries: nat)
    ensures match FirstFree(source, at, prefix, length, taken, tries)
            case Some((name, after)) => name !in taken && InPool(name, prefix, length) && at <= after
            case None => forall k :: 0 <= k < tries ==> NthName(source, at, prefix, length, k) in taken
    decreases tries
  {
    if tries > 0 {
      assert (prefix + Digits(source, at, length))[|prefix|..] == Digits(source, at, length);
      FirstFreeIsFree(source, at + length, prefix, length, taken, tries - 1);
      if FirstFree(source, at, prefix, length, taken, tries).None? {
        forall k | 0 <= k < tries ensures NthName(source, at, prefix, length, k) in taken {
          if k > 0 {
            assert NthName(source, at + length, prefix, length, k - 1) in taken;
          }
        }
      }
    }
  }

  /** The name found is the k-th one drawn, all before it were taken, and the source has
      been read up to its end. */
  lemma {:induction false} FirstFreeIsFirst(source: Script<nat>, at: nat, prefix: string, length: nat,
                                            taken: set<string>, tries: nat) returns (k: nat)
    requires FirstFree(source, at, prefix, length, taken, tries).Some?
    ensures var (name, after) := FirstFree(source, at, prefix, length, taken, tries).value;
            && k < tries && name == NthName(source, at, prefix, length, k) && after == Draw(at, length, k + 1)
            && forall j :: 0 <= j < k ==> NthName(source, at, prefix, length, j) in taken
    decreases tries
  {
    k := 0;
    if prefix + Digits(source, at, length) in taken {
      k := FirstFreeIsFirst(source, at + length, prefix, length, taken, tries - 1);
      forall j | 0 <= j <= k ensures NthName(source, at, prefix, length, j) in taken {
        if j > 0 {
          assert NthName(source, at + length, prefix, length, j - 1) in taken;
        }
      }
      k := k + 1;
    }
  }

  /** Names are drawn back to back. */
  lemma {:induction false} DrawIs(at: nat, length: nat, k: nat)
    ensures Draw(at, length, k) == at + k * length
    decreases k
  {
    if k > 0 {
      DrawIs(at + length, length, k - 1);
      assert k * length == (k - 1) * length + length;
    }
  }

  /** Where the k-th name after `at` starts. */
  function Draw(at: nat, length: nat, k: nat): nat
    decreases k
  {
    if k == 0 then at else Draw(at + length, length, k - 1)
  }

  // ---- how many there can be -----------------------------------------------

  function Pow10(n: nat): nat { if n == 0 then 1 else 10 * Pow10(n - 1) }

  lemma {:induction false} ValueBound(s: string)
    requires AllDigits(s)
    ensures Value(s) < Pow10(|s|)
  {
    if s != "" {
      ValueBound(s[..|s| - 1]);
    }
  }

  lemma {:induction false} ValueIsInjective(s: string, t: string)
    requires AllDigits(s) && AllDigits(t) && |s| == |t| && Value(s) == Value(t)
    ensures s == t
  {
    if s != "" {
      var (a, b) := (s[..|s| - 1], t[..|t| - 1]);
      var (x, y) := (s[|s| - 1], t[|t| - 1]);
      assert DigitValue(x) < 10 && DigitValue(y) < 10;
      ValueIsInjective(a, b);
      assert s == a + [x] && t == b + [y];
    }
  }

  function Number(prefix: string, name: string): int {
    if prefix <= name && AllDigits(name[|prefix|..]) then Value(name[|prefix|..]) else 0
  }

  /** There are at most 10^length names of the form prefix + `length` digits. */
  lemma PoolSize(names: set<string>, prefix: string, length: nat)
    requires forall n :: n in names ==> InPool(n, prefix, length)
    ensures |names| <= Pow10(length)
  {
    var number := (n: string) => Number(prefix, n);
    forall n | n in names ensures 0 <= number(n) < Pow10(length) {
      ValueBound(n[|prefix|..]);
    }
    forall m, n | m in names && n in names && number(m) == number(n) ensures m == n {
      ValueIsInjective(m[|prefix|..], n[|prefix|..]);
      assert m == prefix + m[|prefix|..] && n == prefix + n[|prefix|..];
    }
    NumberedSetSize(names, number, 0, Pow10(length));
  }

  // ---- the batch -------------------------------------------------------------

  /** Names of the cards. */
  function Names(cards: seq<Card>): set<string> {
    if cards == [] then {} else Names(cards[..|cards| - 1]) + {cards[|cards| - 1].username}
  }

  predicate DistinctNames(cards: seq<Card>) {
    forall i, j :: 0 <= i < j < |cards| ==> cards[i].username != cards[j].username
  }

  lemma {:induction false} NamesHas(cards: seq<Card>, name: string)
    ensures name in Names(cards) <==> exists i :: 0 <= i < |cards| && cards[i].username == name
    decreases |cards|
  {
    if cards != [] {
      NamesHas(cards[..|cards| - 1], name);
    }
  }

  lemma {:induction false} NamesSize(cards: seq<Card>)
    requires DistinctNames(cards)
    ensures |Names(cards)| == |cards|
    decreases |cards|
  {
    if cards != [] {
      NamesSize(cards[..|cards| - 1]);
      NamesHas(cards[..|cards| - 1], cards[|cards| - 1].username);
    }
  }

  /** An optional parameter is sent only when it is not empty. */
  function With(p: Params, key: string, value: string): Params {
    if value != "" then p[key := value] else p
  }

  function ParamsOf(c: Card): Params {
    var p := map["name" := c.username, "profile" := c.profile, "comment" := c.comment];
    With(With(With(p, "password", c.password), "limit-bytes-total", c.limitBytes), "limit-uptime", c.limitUptime)
  }

  /** The parameters sent for a card: three always, three only when not empty, no other. */
  lemma ParamsSent(c: Card)
    ensures ParamsOf(c).Keys ==
              {"name", "profile", "comment"}
              + (if c.password != "" then {"password"} else {})
              + (if c.limitBytes != "" then {"limit-bytes-total"} else {})
              + (if c.limitUptime != "" then {"limit-uptime"} else {})
    ensures var p := ParamsOf(c);
            && p["name"] == c.username && p["profile"] == c.profile && p["comment"] == c.comment
            && (c.password != "" ==> p["password"] == c.password)
            && (c.limitBytes != "" ==> p["limit-bytes-total"] == c.limitBytes)
            && (c.limitUptime != "" ==> p["limit-uptime"] == c.limitUptime)
  {
    var base := map["name" := c.username, "profile" := c.profile, "comment" := c.comment];
    assert base.Keys == {"name", "profile", "comment"};
    WithKeys(base, "password", c.password);
    var p := With(base, "password", c.password);
    WithKeys(p, "limit-bytes-total", c.limitBytes);
    WithKeys(With(p, "limit-bytes-total", c.limitBytes), "limit-uptime", c.limitUptime);
  }

  lemma WithKeys(p: Params, key: string, value: string)
    ensures With(p, key, value).Keys == p.Keys + if value != "" then {key} else {}
  {
  }

  predicate PasswordFits(c: Card, system: CardSystem, length: nat) {
    match system
    case DifferentCredentials => |c.password| == length && AllDigits(c.password)
    case SameCredentials => c.password == c.username
    case EmptyPassword => c.password == ""
  }

  /** What a prepared batch promises. */
  predicate Prepared(cards: seq<Card>, snapshot: set<string>, prefix: string, length: nat, system: CardSystem) {
    && DistinctNames(cards)
    && forall i :: 0 <= i < |cards| ==>
         && cards[i].username !in snapshot && InPool(cards[i].username, prefix, length)
         && cards[i].cardNumber == i + 1 && PasswordFits(cards[i], system, length)
  }

  /** The cards prepared and the taken names of that form never exceed 10^length. */
  lemma BatchFitsPool(cards: seq<Card>, snapshot: set<string>, prefix: string, length: nat, system: CardSystem)
    requires Prepared(cards, snapshot, prefix, length, system)
    ensures |cards| + |set n | n in snapshot && InPool(n, prefix, length)| <= Pow10(length)
  {
    var taken := set n | n in snapshot && InPool(n, prefix, length);
    NamesSize(cards);
    forall n | n in Names(cards) ensures InPool(n, prefix, length) && n !in snapshot {
      NamesHas(cards, n);
    }
    assert Names(cards) !! taken;
    assert |Names(cards) + taken| == |Names(cards)| + |taken|;
    PoolSize(Names(cards) + taken, prefix, length);
  }

  /** The prepared cards whose insertion succeeded, in order. */
  function Inserted(cards: seq<Card>, added: Script<bool>): seq<Card> {
    if cards == [] then []
    else
      var n := |cards| - 1;
      Inserted(cards[..n], added) + if added.At(n) then [cards[n]] else []
  }

  /** Every card of `r` was inserted; its number, which increases, tells which one it is. */
  predicate WereInserted(cards: seq<Card>, added: Script<bool>, r: seq<Card>) {
    && (forall i :: 0 <= i < |r| ==>
          1 <= r[i].cardNumber <= |cards| && r[i] == cards[r[i].cardNumber - 1] && added.At(r[i].cardNumber - 1))
    && (forall i, j :: 0 <= i < j < |r| ==> r[i].cardNumber < r[j].cardNumber)
  }

  lemma OneMoreInserted(cards: seq<Card>, added: Script<bool>, r: seq<Card>)
    requires cards != [] && cards[|cards| - 1].cardNumber == |cards|
    requires WereInserted(cards[..|cards| - 1], added, r)
    ensures WereInserted(cards, added, r + if added.At(|cards| - 1) then [cards[|cards| - 1]] else [])
  {
  }

  lemma {:induction false} InsertedNumbers(cards: seq<Card>, added: Script<bool>)
    requires forall k :: 0 <= k < |cards| ==> cards[k].cardNumber == k + 1
    ensures WereInserted(cards, added, Inserted(cards, added))
    decreases |cards|
  {
    if cards != [] {
      var before := cards[..|cards| - 1];
      InsertedNumbers(before, added);
      OneMoreInserted(cards, added, Inserted(before, added));
    }
  }

  lemma {:induction false} InsertedIsReturned(cards: seq<Card>, added: Script<bool>, k: nat)
    requires k < |cards| && added.At(k)
    ensures cards[k] in Inserted(cards, added)
    decreases |cards|
  {
    if k < |cards| - 1 {
      InsertedIsReturned(cards[..|cards| - 1], added, k);
    }
  }

  lemma InsertedAreDistinct(cards: seq<Card>, added: Script<bool>, r: seq<Card>)
    requires DistinctNames(cards) && WereInserted(cards, added, r)
    ensures DistinctNames(r)
  {
    forall i, j | 0 <= i < j < |r| ensures r[i].username != r[j].username {
      var (m, n) := (r[i].cardNumber - 1, r[j].cardNumber - 1);
      assert r[i] == cards[m] && r[j] == cards[n] && m < n;
    }
  }

  /** What is returned is, in order, exactly what was inserted: distinct names and
      strictly increasing numbers survive the failures. */
  lemma InsertedCards(cards: seq<Card>, added: Script<bool>, snapshot: set<string>, prefix: string, length: nat,
                      system: CardSystem)
    requires Prepared(cards, snapshot, prefix, length, system)
    ensures var r := Inserted(cards, added);
            && DistinctNames(r)
            && WereInserted(cards, added, r)
            && (forall k :: 0 <= k < |cards| && added.At(k) ==> cards[k] in r)
  {
    InsertedNumbers(cards, added);
    forall k | 0 <= k < |cards| && added.At(k) ensures cards[k] in Inserted(cards, added) {
      InsertedIsReturned(cards, added, k);
    }
    InsertedAreDistinct(cards, added, Inserted(cards, added));
  }

  // ---- the code --------------------------------------------------------------

  class Random {
    const source: Script<nat>
    var at: nat

    constructor (source: Script<nat>)
      ensures this.source == source && at == 0
    {
      this.source, at := source, 0;
    }

    /** `_generate_random_number`: no digits at all when the length is not positive. */
    method Number(length: int) returns (s: string)
      modifies this
      ensures s == Digits(source, old(at), Count(length)) && at == old(at) + Count(length)
      ensures |s| == Count(length)
      ensures forall i :: 0 <= i < |s| ==> s[i] == ('0' as int + source.At(old(at) + i) % 10) as char
    {
      s := "";
      var i := 0;
      while i < length
        invariant 0 <= i <= Count(length)
        invariant s == Digits(source, old(at), i) && at == old(at) + i
      {
        s := s + [DigitChar(source.At(at) % 10)];
        at := at + 1;
        i := i + 1;
      }
      forall k | 0 <= k < |s| ensures s[k] == ('0' as int + source.At(old(at) + k) % 10) as char {
        DigitsAt(source, old(at), Count(length), k);
      }
    }
  }

  /** Of up to `tries` names drawn back to back from `from` on, the result is the first
      that is not taken, or None if all are; the source has been read up to `to`. */
  ghost predicate DrawnName(source: Script<nat>, from: nat, to: nat, prefix: string, length: nat, taken: set<string>,
                            tries: nat, r: Option<string>)
  {
    match r
    case Some(name) => exists k :: 0 <= k < tries && to == Draw(from, length, k + 1) && name !in taken
                         && name == NthName(source, from, prefix, length, k)
                         && forall j :: 0 <= j < k ==> NthName(source, from, prefix, length, j) in taken
    case None => to == Draw(from, length, tries)
                 && forall k :: 0 <= k < tries ==> NthName(source, from, prefix, length, k) in taken
  }

  lemma TriedIsDrawn(source: Script<nat>, from: nat, prefix: string, length: nat, taken: set<string>, tries: nat)
    ensures match FirstFree(source, from, prefix, length, taken, tries)
            case Some((name, to)) => DrawnName(source, from, to, prefix, length, taken, tries, Option.Some(name))
            case None => DrawnName(source, from, Draw(from, length, tries), prefix, length, taken, tries, Option.None)
  {
    FirstFreeIsFree(source, from, prefix, length, taken, tries);
    if FirstFree(source, from, prefix, length, taken, tries).Some? {
      var k := FirstFreeIsFirst(source, from, prefix, length, taken, tries);
    }
  }

  /** `_generate_unique_username`; failure is ValueError. */
  method GenerateUniqueUsername(prefix: string, length: int, taken: set<string>, random: Random)
    returns (r: Option<string>)
    modifies random
    ensures match FirstFree(random.source, old(random.at), prefix, Count(length), taken, MAX_ATTEMPTS)
            case Some((name, at)) => r == Option.Some(name) && random.at == at
            case None => r == Option.None && random.at == Draw(old(random.at), Count(length), MAX_ATTEMPTS)
    ensures DrawnName(random.source, old(random.at), random.at, prefix, Count(length), taken, 100, r)
  {
    ghost var at := random.at;
    r := TryNames(prefix, length, taken, random, MAX_ATTEMPTS);
    TriedIsDrawn(random.source, at, prefix, Count(length), taken, MAX_ATTEMPTS);
  }

  /** The loop of `_generate_unique_username`. */
  method TryNames(prefix: string, length: int, taken: set<string>, random: Random, tries: nat)
    returns (r: Option<string>)
    modifies random
    ensures match FirstFree(random.source, old(random.at), prefix, Count(length), taken, tries)
            case Some((name, at)) => r == Option.Some(name) && random.at == at
            case None => r == Option.None && random.at == Draw(old(random.at), Count(length), tries)
  {
    var left := tries;
    while left > 0
      invariant FirstFree(random.source, old(random.at), prefix, Count(length), taken, tries)
             == FirstFree(random.source, random.at, prefix, Count(length), taken, left)
      invariant Draw(old(random.at), Count(length), tries) == Draw(random.at, Count(length), left)
    {
      var num := random.Number(length);
      var username := if prefix != "" then prefix + num else num;
      assert username == prefix + num;
      if username !in taken {
        return Option.Some(username);
      }
      left := left - 1;
    }
    r := Option.None;
  }

  lemma NewName(cards: seq<Card>, name: string)
    requires name !in Names(cards)
    ensures forall i :: 0 <= i < |cards| ==> cards[i].username != name
  {
    forall i | 0 <= i < |cards| ensures cards[i].username != name {
      NamesHas(cards, name);
    }
  }

  lemma NamesExtend(cards: seq<Card>, card: Card)
    ensures Names(cards + [card]) == Names(cards) + {card.username}
  {
    assert (cards + [card])[..|cards|] == cards;
  }

  /** One more fresh card keeps the batch prepared. */
  lemma OneMoreCard(cards: seq<Card>, card: Card, snapshot: set<string>, prefix: string, length: nat,
                    system: CardSystem)
    requires Prepared(cards, snapshot, prefix, length, system)
    requires card.username !in snapshot + Names(cards) && InPool(card.username, prefix, length)
    requires card.cardNumber == |cards| + 1 && PasswordFits(card, system, length)
    ensures Prepared(cards + [card], snapshot, prefix, length, system)
    ensures Names(cards + [card]) == Names(cards) + {card.username}
  {
    NewName(cards, card.username);
    NamesExtend(cards, card);
    FreshStaysPrepared(cards, card, snapshot, prefix, length, system);
  }

  lemma FreshStaysPrepared(cards: seq<Card>, card: Card, snapshot: set<string>, prefix: string, length: nat,
                           system: CardSystem)
    requires Prepared(cards, snapshot, prefix, length, system)
    requires forall i :: 0 <= i < |cards| ==> cards[i].username != card.username
    requires card.username !in snapshot && InPool(card.username, prefix, length)
    requires card.cardNumber == |cards| + 1 && PasswordFits(card, system, length)
    ensures Prepared(cards + [card], snapshot, prefix, length, system)
  {
    var more := cards + [card];
    forall i | 0 <= i < |more|
      ensures more[i].username !in snapshot && InPool(more[i].username, prefix, length)
      ensures more[i].cardNumber == i + 1 && PasswordFits(more[i], system, length)
    {
      if i < |cards| {
        assert more[i] == cards[i];
      }
    }
  }

  /** Every card carries the profile, the limits and the comment of the batch. */
  predicate AllOf(cards: seq<Card>, batch: Batch) {
    forall i :: 0 <= i < |cards| ==>
      Batch(cards[i].profile, cards[i].limitUptime, cards[i].limitBytes, cards[i].comment) == batch
  }

  /** The body of the preparation loop once a name is found. */
  method PrepareCard(name: string, i: nat, length: int, system: CardSystem, batch: Batch, random: Random)
    returns (card: Card, p: Params)
    modifies random
    ensures random.at >= old(random.at)
    ensures card.username == name && card.cardNumber == i && PasswordFits(card, system, Count(length))
    ensures Batch(card.profile, card.limitUptime, card.limitBytes, card.comment) == batch
    ensures system == DifferentCredentials ==> card.password == Digits(random.source, old(random.at), Count(length))
    ensures system == SameCredentials ==> card.password == name
    ensures system == EmptyPassword ==> card.password == ""
    ensures p == ParamsOf(card)
  {
    var password := "";
    if system == DifferentCredentials {
      password := random.Number(length);
    } else if system == SameCredentials {
      password := name;
    }
    card := Card(name, password, i, batch.profile, batch.limitUptime, batch.limitBytes, batch.comment);
    p := map["name" := name, "profile" := batch.profile, "comment" := batch.comment];
    p := With(p, "password", password);
    p := With(p, "limit-bytes-total", batch.limitBytes);
    p := With(p, "limit-uptime", batch.limitUptime);
  }

  /** All the names of one round of draws, from `stuck` up to `to`, are taken. */
  predicate AllTaken(source: Script<nat>, stuck: nat, to: nat, prefix: string, length: nat, taken: set<string>) {
    && to == Draw(stuck, length, MAX_ATTEMPTS)
    && FirstFree(source, stuck, prefix, length, taken, MAX_ATTEMPTS) == Option.None
  }

  /** `_prepare_card_users`.  It stops early only when all the names of one round of
      draws, its last one, which began at `stuck`, are taken. */
  method PrepareCardUsers(count: int, length: int, system: CardSystem, prefix: string, batch: Batch,
                          snapshot: set<string>, random: Random)
    returns (cards: seq<Card>, params: seq<Params>, existing: set<string>, ghost stuck: nat)
    modifies random
    ensures |cards| <= Count(count)
    ensures Prepared(cards, snapshot, prefix, Count(length), system)
    ensures existing == snapshot + Names(cards)
    ensures AllOf(cards, batch)
    ensures |params| == |cards| && forall i :: 0 <= i < |cards| ==> params[i] == ParamsOf(cards[i])
    ensures |cards| < Count(count) ==>
              old(random.at) <= stuck && AllTaken(random.source, stuck, random.at, prefix, Count(length), existing)
  {
    cards, params, existing, stuck := [], [], snapshot, random.at;
    var i := 1;
    while i <= count
      invariant |cards| == i - 1 <= Count(count) && old(random.at) <= random.at
      invariant Prepared(cards, snapshot, prefix, Count(length), system)
      invariant existing == snapshot + Names(cards)
      invariant AllOf(cards, batch)
      invariant |params| == |cards| && forall k :: 0 <= k < |cards| ==> params[k] == ParamsOf(cards[k])
    {
      stuck := random.at;
      FirstFreeIsFree(random.source, random.at, prefix, Count(length), existing, MAX_ATTEMPTS);
      var username := GenerateUniqueUsername(prefix, length, existing, random);
      if username.None? {
        break;
      }
      existing := existing + {username.value};
      var card, p := PrepareCard(username.value, i, length, system, batch, random);
      OneMoreCard(cards, card, snapshot, prefix, Count(length), system);
      cards := cards + [card];
      params := params + [p];
      i := i + 1;
    }
  }

  /** One request for each of the first `n` cards, in order. */
  predicate SentFor(cards: seq<Card>, n: nat, sent: seq<Params>)
    requires n <= |cards|
  {
    |sent| == n && forall i :: 0 <= i < n ==> sent[i] == ParamsOf(cards[i])
  }

  /** The insertions of one chunk, continuing the lists of requests sent and of cards
      already made. */
  method InsertChunk(cards: seq<Card>, params: seq<Params>, from: nat, end: nat, added: Script<bool>,
                     sent0: seq<Params>, created0: seq<Card>)
    returns (sent: seq<Params>, created: seq<Card>)
    requires from <= end <= |cards| && SentFor(cards, |cards|, params)
    requires SentFor(cards, from, sent0) && created0 == Inserted(cards[..from], added)
    ensures SentFor(cards, end, sent) && created == Inserted(cards[..end], added)
  {
    var (chunk, chunkParams) := (cards[from..end], params[from..end]);
    sent, created := sent0, created0;
    var k := 0;
    while k < |chunk|
      invariant 0 <= k <= |chunk|
      invariant SentFor(cards, from + k, sent) && created == Inserted(cards[..from + k], added)
    {
      assert cards[..from + k + 1][..from + k] == cards[..from + k];
      sent := sent + [chunkParams[k]];
      if added.At(from + k) {
        created := created + [chunk[k]];
      }
      k := k + 1;
    }
  }

  /** The chunked double loop. */
  method InsertAll(cards: seq<Card>, params: seq<Params>, added: Script<bool>)
    returns (sent: seq<Params>, created: seq<Card>)
    requires SentFor(cards, |cards|, params)
    ensures SentFor(cards, |cards|, sent) && created == Inserted(cards, added)
  {
    sent, created := [], [];
    var idx := 0;
    ghost var done := 0;
    while idx < |cards|
      invariant 0 <= idx && done == if idx <= |cards| then idx else |cards|
      invariant SentFor(cards, done, sent) && created == Inserted(cards[..done], added)
    {
      var end := if idx + CHUNK_SIZE < |cards| then idx + CHUNK_SIZE else |cards|;
      sent, created := InsertChunk(cards, params, idx, end, added, sent, created);
      done := end;
      idx := idx + CHUNK_SIZE;
    }
    assert cards[..done] == cards;
  }

  /** create_cards.  `baseTime` is the formatted time, and
      `added` says which insertions succeed. */
  method CreateCards(count: int, length: int, system: CardSystem, profile: string, prefix: string,
                     limitUptime: string, limitBytes: string, baseTime: string,
                     snapshot: set<string>, added: Script<bool>, random: Random)
    returns (created: seq<Card>, sent: seq<Params>, ghost prepared: seq<Card>)
    modifies random
    ensures Prepared(prepared, snapshot, prefix, Count(length), system)
    ensures AllOf(prepared, Batch(profile, limitUptime, limitBytes,
                                  if prefix != "" then prefix + "_" + baseTime else baseTime))
    ensures |prepared| <= Count(count)
    ensures |prepared| < Count(count) ==>
              (exists stuck :: old(random.at) <= stuck
                 && AllTaken(random.source, stuck, random.at, prefix, Count(length), snapshot + Names(prepared)))
    ensures SentFor(prepared, |prepared|, sent)
    ensures created == Inserted(prepared, added)
  {
    var comment := if prefix != "" then prefix + "_" + baseTime else baseTime;
    var batch := Batch(profile, limitUptime, limitBytes, comment);
    var cards, params, existing;
    ghost var stuck;
    cards, params, existing, stuck := PrepareCardUsers(count, length, system, prefix, batch, snapshot, random);
    prepared := cards;
    sent, created := InsertAll(cards, params, added);
  }
}
