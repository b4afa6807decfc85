/**
 User admission: the per-IP connection counts, the cooldown after an IP's last connection closed, the limit on
 distinct IPs and the data quota.  The check and the marking of a new connection are two separate critical
 sections, so handshakes that have passed the check but are not marked yet are part of the state.
 */
module Admission {

  type IP = string

  /** Ten seconds, in nanoseconds. */
  const COOLDOWN: int := 10_000_000_000

  datatype User = User(
    active: map<IP, int>,       // open connections per IP
    cooldown: map<IP, int>,     // when the last connection of an IP closed
    ipLimit: int,
    dataLimit: int,
    used: int)

  datatype Verdict = Allow | QuotaExceeded | InCooldown | LimitReached

  datatype Checked = Checked(user: User, verdict: Verdict)

  function Expire(cooldown: map<IP, int>, now: int): map<IP, int> {
    map ip | ip in cooldown && now - cooldown[ip] <= COOLDOWN :: cooldown[ip]
  }

  function Count(active: map<IP, int>, ip: IP): int {
    if ip in active then active[ip] else 0
  }

  function Check(u: User, ip: IP, now: int): Checked {
    if u.dataLimit > 0 && u.used >= u.dataLimit then Checked(u, QuotaExceeded)
    else if u.ipLimit <= 0 then Checked(u, Allow)
    else
      var u' := u.(cooldown := Expire(u.cooldown, now));
      if Count(u.active, ip) > 0 then Checked(u', Allow)
      else if ip in u'.cooldown then Checked(u', InCooldown)
      else if |u.active| >= u.ipLimit then Checked(u', LimitReached)
      else Checked(u', Allow)
  }

  function Connect(u: User, ip: IP): User {
    u.(active := u.active[ip := Count(u.active, ip) + 1], cooldown := u.cooldown - {ip})
  }

  function Disconnect(u: User, ip: IP, now: int): User {
    var left := Count(u.active, ip) - 1;
    if left > 0 then u.(active := u.active[ip := left])
    else u.(active := u.active - {ip}, cooldown := if u.ipLimit > 0 then u.cooldown[ip := now] else u.cooldown)
  }

  // ------------------------------------------------------------------ runs

  /** A connection that has passed the check, at which time and in which step of the run, and is not marked yet. */
  datatype Handshake = Handshake(ip: IP, asked: int, step: nat)

  /** The close of the last open connection of an IP: the time and the step of the run. */
  datatype Closing = Closing(at: int, step: nat)

  /** The user, the handshakes between check and mark, the open connections, and history variables. */
  datatype Door = Door(
    user: User,
    pending: seq<Handshake>,
    open: multiset<IP>,
    clock: int,
    steps: nat,                     // events so far
    peak: nat,                      // most handshakes that were pending at one time
    lastClosed: map<IP, Closing>)

  datatype Event =
    | Ask(ip: IP, now: int)
    | Mark(i: nat)
    | Leave(ip: IP, now: int)
    | Charge(bytes: nat)

  predicate Enabled(d: Door, e: Event) {
    match e
    case Ask(_, now) => d.clock <= now
    case Mark(i) => i < |d.pending|
    case Leave(ip, now) => ip in d.open && d.clock <= now
    case Charge(_) => true
  }

  function Apply(d: Door, e: Event): Door
    requires Enabled(d, e)
  {
    match e
    case Ask(ip, now) =>
      var c := Check(d.user, ip, now);
      var pending := if c.verdict.Allow? then d.pending + [Handshake(ip, now, d.steps)] else d.pending;
      d.(user := c.user, pending := pending, clock := now, steps := d.steps + 1,
         peak := if |pending| > d.peak then |pending| else d.peak)
    case Mark(i) =>
      d.(user := Connect(d.user, d.pending[i].ip),
         pending := d.pending[..i] + d.pending[i + 1..],
         open := d.open + multiset{d.pending[i].ip}, steps := d.steps + 1)
    case Leave(ip, now) =>
      var open := d.open - multiset{ip};
      d.(user := Disconnect(d.user, ip, now), open := open, clock := now, steps := d.steps + 1,
         lastClosed := if ip in open then d.lastClosed else d.lastClosed[ip := Closing(now, d.steps)])
    case Charge(bytes) => d.(user := d.user.(used := d.user.used + bytes), steps := d.steps + 1)
  }

  function Fresh(ipLimit: int, dataLimit: int): Door {
    Door(User(map[], map[], ipLimit, dataLimit, 0), [], multiset{}, 0, 0, 0, map[])
  }

  /** Whether every event of a run was possible, and the state it leads to. */
  function Reached(ipLimit: int, dataLimit: int, es: seq<Event>): (bool, Door) {
    if es == [] then (true, Fresh(ipLimit, dataLimit))
    else
      var (ok, d) := Reached(ipLimit, dataLimit, es[..|es| - 1]);
      var e := es[|es| - 1];
      if ok && Enabled(d, e) then (true, Apply(d, e)) else (false, d)
  }

  // ------------------------------------------------------------------ invariant

  /** The IPs that are connected or about to be. */
  function Inside(d: Door): set<IP> {
    d.user.active.Keys + Waiting(d)
  }

  /** The IPs of the handshakes that have passed the check. */
  function Waiting(d: Door): set<IP> {
    set h | h in d.pending :: h.ip
  }

  /** The counts are the open connections, and an IP is never active and cooling down at once. */
  ghost predicate Counted(d: Door) {
    && (forall ip :: ip in d.user.active <==> ip in d.open)
    && (forall ip :: ip in d.user.active ==> d.user.active[ip] == d.open[ip])
    && d.user.active.Keys !! d.user.cooldown.Keys
  }

  ghost predicate Bounded(d: Door) {
    && |d.pending| <= d.peak
    && (d.user.ipLimit > 0 && d.peak > 0 ==> |Inside(d)| <= d.user.ipLimit + d.peak - 1)
    && (d.peak == 0 ==> d.user.active == map[])
  }

  /** An inactive IP that was connected before is cooling down since its last close, or that was long enough ago. */
  predicate Cool(d: Door, ip: IP) {
    ip in d.lastClosed && ip !in d.user.active ==>
      (ip in d.user.cooldown && d.user.cooldown[ip] == d.lastClosed[ip].at) || d.clock - d.lastClosed[ip].at > COOLDOWN
  }

  ghost predicate Cooling(d: Door) {
    d.user.ipLimit > 0 ==> forall ip :: Cool(d, ip)
  }

  /** A handshake of an IP that is closed was asked before that close, or more than the cooldown after it. */
  predicate Timely(d: Door, h: Handshake) {
    && h.step < d.steps && h.asked <= d.clock
    && (h.ip in d.lastClosed ==>
          var c := d.lastClosed[h.ip];
          && h.step != c.step
          && (h.step < c.step ==> h.asked <= c.at)
          && (h.step > c.step && h.ip !in d.user.active && d.user.ipLimit > 0 ==> h.asked - c.at > COOLDOWN))
  }

  ghost predicate Dated(d: Door) {
    && (forall h :: h in d.pending ==> Timely(d, h))
    && (forall ip :: ip in d.lastClosed ==> d.lastClosed[ip].step < d.steps && d.lastClosed[ip].at <= d.clock)
  }

  ghost predicate Inv(d: Door) {
    Counted(d) && Bounded(d) && Cooling(d) && Dated(d)
  }

  predicate CountedAt(d: Door, ip: IP) {
    && (ip in d.user.active <==> ip in d.open)
    && (ip in d.user.active ==> d.user.active[ip] == d.open[ip] && ip !in d.user.cooldown)
  }

  lemma {:induction false} AskCounted(d: Door, x: IP, now: int, ip: IP)
    requires CountedAt(d, ip) && Enabled(d, Ask(x, now))
    ensures CountedAt(Apply(d, Ask(x, now)), ip)
  {
    var u := Check(d.user, x, now).user;
    assert u.active == d.user.active && (ip in u.cooldown ==> ip in d.user.cooldown);
  }

  lemma {:induction false} MarkCounted(d: Door, i: nat, ip: IP)
    requires CountedAt(d, ip) && Enabled(d, Mark(i))
    ensures CountedAt(Apply(d, Mark(i)), ip)
  {
    var x, d' := d.pending[i].ip, Apply(d, Mark(i));
    assert d'.open[ip] == d.open[ip] + if ip == x then 1 else 0;
  }

  lemma {:induction false} LeaveCounted(d: Door, x: IP, now: int, ip: IP)
    requires CountedAt(d, ip) && Enabled(d, Leave(x, now))
    ensures CountedAt(Apply(d, Leave(x, now)), ip)
  {
    var d' := Apply(d, Leave(x, now));
    assert d'.open[ip] == d.open[ip] - if ip == x then 1 else 0;
  }

  lemma {:induction false} CountedStepAt(d: Door, e: Event, ip: IP)
    requires CountedAt(d, ip) && Enabled(d, e)
    ensures CountedAt(Apply(d, e), ip)
  {
    match e
    case Ask(x, now) => AskCounted(d, x, now, ip);
    case Mark(i) => MarkCounted(d, i, ip);
    case Leave(x, now) => LeaveCounted(d, x, now, ip);
    case Charge(_) =>
  }

  lemma {:induction false} CountedStep(d: Door, e: Event)
    requires Counted(d) && Enabled(d, e)
    ensures Counted(Apply(d, e))
  {
    var d' := Apply(d, e);
    forall ip ensures CountedAt(d', ip) {
      assert CountedAt(d, ip);
      CountedStepAt(d, e, ip);
    }
    assert forall ip :: ip in d'.user.active ==> CountedAt(d', ip);
    assert forall ip :: ip in d'.open ==> CountedAt(d', ip);
  }

  lemma {:induction false} PendingSize(d: Door)
    ensures |Waiting(d)| <= |d.pending|
    decreases |d.pending|
  {
    if d.pending != [] {
      var before := d.(pending := d.pending[..|d.pending| - 1]);
      PendingSize(before);
      assert Waiting(d) == Waiting(before) + {d.pending[|d.pending| - 1].ip};
    }
  }

  lemma {:induction false} SubsetSize(a: set<IP>, b: set<IP>)
    requires a <= b
    ensures |a| <= |b|
  {
    assert b == a + (b - a);
  }

  lemma {:induction false} UnionSize(a: set<IP>, b: set<IP>)
    ensures |a + b| <= |a| + |b|
  {
    assert a + b == a + (b - a);
    SubsetSize(b - a, b);
  }

  lemma {:induction false} AskWaiting(d: Door, ip: IP, now: int)
    requires Enabled(d, Ask(ip, now))
    ensures var d' := Apply(d, Ask(ip, now));
            Waiting(d') == if Check(d.user, ip, now).verdict.Allow? then Waiting(d) + {ip} else Waiting(d)
  {
    if Check(d.user, ip, now).verdict.Allow? {
      var d' := Apply(d, Ask(ip, now));
      assert d'.pending == d.pending + [Handshake(ip, now, d.steps)];
    }
  }

  /** A check that lets an IP in which is neither connected nor about to be leaves room for the others. */
  lemma {:induction false} NewcomerFits(d: Door, ip: IP, now: int)
    requires Bounded(d) && Enabled(d, Ask(ip, now)) && d.user.ipLimit > 0
    requires Check(d.user, ip, now).verdict.Allow? && ip !in Inside(d)
    ensures var d' := Apply(d, Ask(ip, now)); |Inside(d')| <= d.user.ipLimit - 1 + |d'.pending|
  {
    var d' := Apply(d, Ask(ip, now));
    assert |d.user.active.Keys| == |d.user.active| < d.user.ipLimit && d'.user.active == d.user.active;
    PendingSize(d');
    UnionSize(d'.user.active.Keys, Waiting(d'));
  }

  lemma {:induction false} BoundedAsk(d: Door, ip: IP, now: int)
    requires Bounded(d) && Enabled(d, Ask(ip, now))
    ensures Bounded(Apply(d, Ask(ip, now)))
  {
    if Check(d.user, ip, now).verdict.Allow? && ip !in Inside(d) {
      if d.user.ipLimit > 0 {
        NewcomerFits(d, ip, now);
      }
    } else {
      NobodyNew(d, ip, now);
    }
  }

  lemma {:induction false} NobodyNew(d: Door, ip: IP, now: int)
    requires Enabled(d, Ask(ip, now)) && !(Check(d.user, ip, now).verdict.Allow? && ip !in Inside(d))
    ensures Inside(Apply(d, Ask(ip, now))) == Inside(d)
  {
    AskWaiting(d, ip, now);
    assert Apply(d, Ask(ip, now)).user.active == d.user.active;
  }

  lemma {:induction false} BoundedStep(d: Door, e: Event)
    requires Bounded(d) && Counted(d) && Enabled(d, e)
    ensures Bounded(Apply(d, e))
  {
    var d' := Apply(d, e);
    match e
    case Ask(ip, now) => BoundedAsk(d, ip, now);
    case Mark(i) =>
      assert forall h :: h in d'.pending ==> h in d.pending;
      assert d.pending[i].ip in Inside(d);
      assert Inside(d') <= Inside(d);
      SubsetSize(Inside(d'), Inside(d));
    case Leave(ip, now) =>
      assert Inside(d') <= Inside(d);
      SubsetSize(Inside(d'), Inside(d));
    case Charge(_) =>
      assert Inside(d') == Inside(d);
  }

  lemma {:induction false} CoolingStepAt(d: Door, e: Event, ip: IP)
    requires Cool(d, ip) && CountedAt(d, ip) && Enabled(d, e) && d.user.ipLimit > 0
    ensures Cool(Apply(d, e), ip)
  {
  }

  lemma {:induction false} CoolingStep(d: Door, e: Event)
    requires Cooling(d) && Counted(d) && Enabled(d, e)
    ensures Cooling(Apply(d, e))
  {
    if d.user.ipLimit > 0 {
      forall ip ensures Cool(Apply(d, e), ip) {
        assert CountedAt(d, ip);
        CoolingStepAt(d, e, ip);
      }
    }
  }

  /** An allowed check of a closed IP comes more than the cooldown after its close. */
  lemma {:induction false} CheckIsCool(d: Door, ip: IP, now: int)
    requires Cooling(d) && Counted(d) && d.clock <= now && d.user.ipLimit > 0
    requires ip in d.lastClosed && ip !in d.user.active && Check(d.user, ip, now).verdict.Allow?
    ensures now - d.lastClosed[ip].at > COOLDOWN
  {
    assert Cool(d, ip);
  }

  lemma {:induction false} DatedStep(d: Door, e: Event)
    requires Dated(d) && Cooling(d) && Counted(d) && Enabled(d, e)
    ensures Dated(Apply(d, e))
  {
    var d' := Apply(d, e);
    forall h | h in d'.pending ensures Timely(d', h) {
      if h in d.pending {
        assert Timely(d, h);
      } else {
        assert e.Ask? && h == Handshake(e.ip, e.now, d.steps);
        if e.ip in d.lastClosed && e.ip !in d.user.active && d.user.ipLimit > 0 {
          CheckIsCool(d, e.ip, e.now);
        }
      }
    }
  }

  lemma {:induction false} Invariant(ipLimit: int, dataLimit: int, es: seq<Event>)
    requires Reached(ipLimit, dataLimit, es).0
    ensures Inv(Reached(ipLimit, dataLimit, es).1) && Reached(ipLimit, dataLimit, es).1.user.ipLimit == ipLimit
  {
    if es != [] {
      Invariant(ipLimit, dataLimit, es[..|es| - 1]);
      var d := Reached(ipLimit, dataLimit, es[..|es| - 1]).1;
      CountedStep(d, es[|es| - 1]);
      BoundedStep(d, es[|es| - 1]);
      CoolingStep(d, es[|es| - 1]);
      DatedStep(d, es[|es| - 1]);
    }
  }

  // ------------------------------------------------------------------ what the check answers

  /** Cooldown entries are the times of last closes. */
  ghost predicate Recorded(d: Door) {
    forall ip :: ip in d.user.cooldown ==> ip in d.lastClosed && d.user.cooldown[ip] == d.lastClosed[ip].at
  }

  lemma {:induction false} RecordedStep(d: Door, e: Event)
    requires Recorded(d) && Counted(d) && Enabled(d, e)
    ensures Recorded(Apply(d, e))
  {
    match e
    case Ask(ip, now) =>
      var u := Check(d.user, ip, now).user;
      assert forall x :: x in u.cooldown ==> x in d.user.cooldown && u.cooldown[x] == d.user.cooldown[x];
    case Mark(i) =>
    case Leave(ip, now) => LeaveRecords(d, ip, now);
    case Charge(_) =>
  }

  lemma {:induction false} LeaveRecords(d: Door, ip: IP, now: int)
    requires Recorded(d) && Counted(d) && Enabled(d, Leave(ip, now))
    ensures Recorded(Apply(d, Leave(ip, now)))
  {
    var d' := Apply(d, Leave(ip, now));
    assert d.user.active[ip] == d.open[ip] && d'.open[ip] == d.open[ip] - 1;
    assert ip !in d.user.cooldown;
  }

  /** The bytes charged during a run. */
  function Charged(es: seq<Event>): nat {
    if es == [] then 0
    else Charged(es[..|es| - 1]) + if es[|es| - 1].Charge? then es[|es| - 1].bytes else 0
  }

  lemma {:induction false} Records(ipLimit: int, dataLimit: int, es: seq<Event>)
    requires Reached(ipLimit, dataLimit, es).0
    ensures var d := Reached(ipLimit, dataLimit, es).1;
            Recorded(d) && d.user.used == Charged(es) && d.user.dataLimit == dataLimit
  {
    if es != [] {
      var before := es[..|es| - 1];
      Records(ipLimit, dataLimit, before);
      Invariant(ipLimit, dataLimit, before);
      RecordedStep(Reached(ipLimit, dataLimit, before).1, es[|es| - 1]);
    }
  }

  /** The IPs with an open connection. */
  function OpenIPs(d: Door): set<IP> {
    set ip | ip in d.open
  }

  /** The last connection of this IP closed at most the cooldown ago. */
  predicate JustLeft(d: Door, ip: IP, now: int) {
    ip !in d.open && ip in d.lastClosed && now - d.lastClosed[ip].at <= 10_000_000_000
  }

  lemma {:induction false} CoolingIff(d: Door, ip: IP, now: int)
    requires Counted(d) && Cooling(d) && Recorded(d) && d.user.ipLimit > 0 && d.clock <= now && ip !in d.open
    ensures ip in Expire(d.user.cooldown, now) <==> JustLeft(d, ip, now)
  {
    assert Cool(d, ip);
  }

  /**
   In every run, what the check answers, told by the run alone: the quota first, then an IP with an open connection
   is let in, one whose last connection closed at most ten seconds ago is refused, one more than the limit is
   refused, and every other is let in.
   */
  lemma {:induction false} CheckAnswers(ipLimit: int, dataLimit: int, es: seq<Event>, ip: IP, now: int)
    requires Reached(ipLimit, dataLimit, es).0 && Reached(ipLimit, dataLimit, es).1.clock <= now
    ensures var d := Reached(ipLimit, dataLimit, es).1;
            Check(d.user, ip, now).verdict
            == if dataLimit > 0 && Charged(es) >= dataLimit then QuotaExceeded
               else if ipLimit <= 0 || ip in OpenIPs(d) then Allow
               else if JustLeft(d, ip, now) then InCooldown
               else if |OpenIPs(d)| >= ipLimit then LimitReached
               else Allow
  {
    var d := Reached(ipLimit, dataLimit, es).1;
    Invariant(ipLimit, dataLimit, es);
    Records(ipLimit, dataLimit, es);
    assert OpenIPs(d) == d.user.active.Keys;
    assert |d.user.active| == |d.user.active.Keys|;
    assert ip in d.open ==> d.user.active[ip] == d.open[ip] > 0;
    if ipLimit > 0 && ip !in d.open {
      CoolingIff(d, ip, now);
    }
  }

  // ------------------------------------------------------------------ theorems

  /**
   In every run the per-IP counts equal the open connections and no active IP is cooling down; and with at
   most P handshakes ever pending at once, at most `ipLimit + P - 1` distinct IPs are active.  When check and
   mark form one step (P is 1) that is the configured limit.
   */
  lemma {:induction false} IpLimitHolds(ipLimit: int, dataLimit: int, es: seq<Event>)
    requires Reached(ipLimit, dataLimit, es).0 && ipLimit > 0
    ensures var d := Reached(ipLimit, dataLimit, es).1;
            && (forall ip :: ip in d.user.active <==> ip in d.open)
            && (forall ip :: ip in d.user.active ==> d.user.active[ip] == d.open[ip])
            && d.user.active.Keys !! d.user.cooldown.Keys
            && |d.user.active| <= ipLimit + (if d.peak > 1 then d.peak else 1) - 1
  {
    Invariant(ipLimit, dataLimit, es);
    var d := Reached(ipLimit, dataLimit, es).1;
    SubsetSize(d.user.active.Keys, Inside(d));
    assert |d.user.active| == |d.user.active.Keys|;
  }

  /**
   In every run, the check of an IP without an open connection succeeds only more than ten seconds after its
   last connection closed.
   */
  lemma {:induction false} CooldownHolds(ipLimit: int, dataLimit: int, es: seq<Event>, ip: IP, now: int)
    requires Reached(ipLimit, dataLimit, es).0 && ipLimit > 0
    requires var d := Reached(ipLimit, dataLimit, es).1;
             d.clock <= now && ip !in d.open && ip in d.lastClosed && Check(d.user, ip, now).verdict.Allow?
    ensures now - Reached(ipLimit, dataLimit, es).1.lastClosed[ip].at > COOLDOWN
  {
    Invariant(ipLimit, dataLimit, es);
    CheckIsCool(Reached(ipLimit, dataLimit, es).1, ip, now);
  }

  /**
   In every run, when a handshake of a closed IP is about to be marked: its check came more than ten seconds
   after the close if and only if it was asked after the close, and then so does the mark.
   */
  lemma {:induction false} MarkAfterClose(ipLimit: int, dataLimit: int, es: seq<Event>, i: nat)
    requires Reached(ipLimit, dataLimit, es).0 && ipLimit > 0 && i < |Reached(ipLimit, dataLimit, es).1.pending|
    requires var d := Reached(ipLimit, dataLimit, es).1;
             d.pending[i].ip !in d.user.active && d.pending[i].ip in d.lastClosed
    ensures var d := Reached(ipLimit, dataLimit, es).1;
            var h, c := d.pending[i], d.lastClosed[d.pending[i].ip];
            && (h.asked - c.at > COOLDOWN <==> h.step > c.step)
            && (h.step > c.step ==> d.clock - c.at > COOLDOWN)
  {
    Invariant(ipLimit, dataLimit, es);
    assert Timely(Reached(ipLimit, dataLimit, es).1, Reached(ipLimit, dataLimit, es).1.pending[i]);
  }

  /** After `more`, the IP is about to be marked for the first time since the close that ended `es`. */
  ghost predicate Readmits(ipLimit: int, dataLimit: int, es: seq<Event>, more: seq<Event>, ip: IP) {
    var d, d' := Reached(ipLimit, dataLimit, es).1, Reached(ipLimit, dataLimit, es + more).1;
    && Reached(ipLimit, dataLimit, es + more).0
    && ip in Waiting(d') && ip !in d'.user.active
    && ip in d.lastClosed && ip in d'.lastClosed && d'.lastClosed[ip] == d.lastClosed[ip]
  }

  lemma {:induction false} OldHandshakes(ipLimit: int, dataLimit: int, es: seq<Event>, more: seq<Event>, h: Handshake)
    requires Reached(ipLimit, dataLimit, es + more).0 && h in Reached(ipLimit, dataLimit, es + more).1.pending
    ensures Reached(ipLimit, dataLimit, es).0
    ensures var d := Reached(ipLimit, dataLimit, es).1;
            d.steps <= Reached(ipLimit, dataLimit, es + more).1.steps && (h.step < d.steps ==> h in d.pending)
    decreases |more|
  {
    if more == [] {
      assert es + more == es;
    } else {
      var before := more[..|more| - 1];
      assert (es + more)[..|es + more| - 1] == es + before;
      Prefixes(ipLimit, dataLimit, es, before);
      var d := Reached(ipLimit, dataLimit, es + before).1;
      if h in d.pending {
        OldHandshakes(ipLimit, dataLimit, es, before, h);
      }
    }
  }

  lemma {:induction false} Prefixes(ipLimit: int, dataLimit: int, es: seq<Event>, more: seq<Event>)
    requires Reached(ipLimit, dataLimit, es + more).0
    ensures Reached(ipLimit, dataLimit, es).0
    ensures Reached(ipLimit, dataLimit, es).1.steps <= Reached(ipLimit, dataLimit, es + more).1.steps
    decreases |more|
  {
    if more == [] {
      assert es + more == es;
    } else {
      assert (es + more)[..|es + more| - 1] == es + more[..|more| - 1];
      Prefixes(ipLimit, dataLimit, es, more[..|more| - 1]);
    }
  }

  /**
   The cooldown of a close is respected by every continuation, that is, the IP's next connection is marked more
   than ten seconds later, if and only if no handshake of that IP was pending at the close.
   */
  lemma {:induction false} CooldownHoldsIff(ipLimit: int, dataLimit: int, es: seq<Event>, ip: IP)
    requires Reached(ipLimit, dataLimit, es).0 && ipLimit > 0
    requires es != [] && es[|es| - 1].Leave? && es[|es| - 1].ip == ip
    requires ip !in Reached(ipLimit, dataLimit, es).1.user.active
    ensures var d := Reached(ipLimit, dataLimit, es).1;
            && ip in d.lastClosed
            && ((forall more :: Readmits(ipLimit, dataLimit, es, more, ip) ==>
                   Reached(ipLimit, dataLimit, es + more).1.clock - d.lastClosed[ip].at > COOLDOWN)
                <==> ip !in Waiting(d))
  {
    var d := Reached(ipLimit, dataLimit, es).1;
    JustClosed(ipLimit, dataLimit, es, ip);
    if ip in Waiting(d) {
      assert es + [] == es;
      assert Readmits(ipLimit, dataLimit, es, [], ip);
    } else {
      forall more | Readmits(ipLimit, dataLimit, es, more, ip)
        ensures Reached(ipLimit, dataLimit, es + more).1.clock - d.lastClosed[ip].at > COOLDOWN
      {
        CleanCloseCools(ipLimit, dataLimit, es, more, ip);
      }
    }
  }

  lemma {:induction false} JustClosed(ipLimit: int, dataLimit: int, es: seq<Event>, ip: IP)
    requires Reached(ipLimit, dataLimit, es).0
    requires es != [] && es[|es| - 1].Leave? && es[|es| - 1].ip == ip
    requires ip !in Reached(ipLimit, dataLimit, es).1.user.active
    ensures var d := Reached(ipLimit, dataLimit, es).1;
            d.steps > 0 && ip in d.lastClosed && d.lastClosed[ip] == Closing(d.clock, d.steps - 1)
  {
    Invariant(ipLimit, dataLimit, es);
  }

  lemma {:induction false} CleanCloseCools(ipLimit: int, dataLimit: int, es: seq<Event>, more: seq<Event>, ip: IP)
    requires Readmits(ipLimit, dataLimit, es, more, ip) && ipLimit > 0
    requires var d := Reached(ipLimit, dataLimit, es).1; ip !in Waiting(d) && d.lastClosed[ip].step < d.steps
    ensures Reached(ipLimit, dataLimit, es + more).1.clock - Reached(ipLimit, dataLimit, es).1.lastClosed[ip].at > COOLDOWN
  {
    var d' := Reached(ipLimit, dataLimit, es + more).1;
    var i :| 0 <= i < |d'.pending| && d'.pending[i].ip == ip;
    OldHandshakes(ipLimit, dataLimit, es, more, d'.pending[i]);
    MarkAfterClose(ipLimit, dataLimit, es + more, i);
  }

  /**
   With a handshake pending at the close the cooldown can be missed altogether, although never more than one
   handshake was pending: for every limit, an IP can be readmitted at the very time its last connection closed.
   */
  lemma {:induction false} ReadmittedAtOnce(ipLimit: int, ip: IP) returns (es: seq<Event>)
    requires ipLimit > 0
    ensures es == [Ask(ip, 0), Mark(0), Ask(ip, 0), Leave(ip, 0), Mark(0)]
    ensures var (ok, d) := Reached(ipLimit, 0, es);
            ok && d.peak == 1 && ip in d.user.active && ip in d.lastClosed && d.clock - d.lastClosed[ip].at == 0
  {
    es := Closed(ipLimit, ip);
    Snoc(ipLimit, 0, es, Mark(0));
    es := es + [Mark(0)];
  }

  /** At time 0 and without a data limit, with these connections, handshakes and closes. */
  predicate Stands(d: Door, ipLimit: int, active: map<IP, int>, pending: seq<Handshake>, steps: nat, closed: map<IP, Closing>) {
    && d.user.ipLimit == ipLimit && d.user.dataLimit == 0 && d.clock == 0 && d.peak == 1
    && d.user.active == active && d.pending == pending && d.steps == steps && d.lastClosed == closed
  }

  /** One connection of the IP. */
  lemma {:induction false} Entered(ipLimit: int, ip: IP) returns (es: seq<Event>)
    requires ipLimit > 0
    ensures es == [Ask(ip, 0), Mark(0)] && Reached(ipLimit, 0, es).0
    ensures Stands(Reached(ipLimit, 0, es).1, ipLimit, map[ip := 1], [], 2, map[]) && Reached(ipLimit, 0, es).1.open == multiset{ip}
  {
    Snoc(ipLimit, 0, [], Ask(ip, 0));
    assert [] + [Ask(ip, 0)] == [Ask(ip, 0)];
    assert Stands(Reached(ipLimit, 0, [Ask(ip, 0)]).1, ipLimit, map[], [Handshake(ip, 0, 0)], 1, map[]);
    Snoc(ipLimit, 0, [Ask(ip, 0)], Mark(0));
    es := [Ask(ip, 0)] + [Mark(0)];
  }

  /** The run up to the close, with a second handshake pending. */
  lemma {:induction false} Closed(ipLimit: int, ip: IP) returns (es: seq<Event>)
    requires ipLimit > 0
    ensures es == [Ask(ip, 0), Mark(0), Ask(ip, 0), Leave(ip, 0)] && Reached(ipLimit, 0, es).0
    ensures Stands(Reached(ipLimit, 0, es).1, ipLimit, map[], [Handshake(ip, 0, 2)], 4, map[ip := Closing(0, 3)])
  {
    es := Entered(ipLimit, ip);
    Snoc(ipLimit, 0, es, Ask(ip, 0));
    es := es + [Ask(ip, 0)];
    assert Stands(Reached(ipLimit, 0, es).1, ipLimit, map[ip := 1], [Handshake(ip, 0, 2)], 3, map[]);
    Snoc(ipLimit, 0, es, Leave(ip, 0));
    es := es + [Leave(ip, 0)];
  }

  /**
   A handshake asked before the close may also stay pending past the cooldown, so the time of the mark alone
   does not tell when it was asked.
   */
  lemma {:induction false} SlowHandshake(ipLimit: int, ip: IP, other: IP) returns (es: seq<Event>)
    requires ipLimit > 0 && other != ip
    ensures var (ok, d) := Reached(ipLimit, 0, es);
            && ok && ip !in d.user.active && ip in d.lastClosed && d.pending != [] && d.pending[0].ip == ip
            && d.pending[0].step < d.lastClosed[ip].step && d.clock - d.lastClosed[ip].at > COOLDOWN
  {
    es := Closed(ipLimit, ip);
    Snoc(ipLimit, 0, es, Ask(other, COOLDOWN + 1));
    es := es + [Ask(other, COOLDOWN + 1)];
  }

  // ------------------------------------------------------------------ the bound is attained

  function Name(i: nat): IP {
    seq(i, _ => 'x')
  }

  /** `a` IPs are active and the next `p` of them have passed the check. */
  ghost predicate Crowd(d: Door, ipLimit: nat, a: nat, p: nat, peak: nat) {
    && d.user.ipLimit == ipLimit && d.user.dataLimit == 0 && d.user.cooldown == map[]
    && d.clock == 0 && d.peak == peak
    && |d.user.active| == a && (forall i: nat :: a <= i ==> Name(i) !in d.user.active)
    && |d.pending| == p && (forall j :: 0 <= j < p ==> d.pending[j].ip == Name(a + j))
  }

  lemma {:induction false} AskJoins(d: Door, ipLimit: nat, a: nat, p: nat, peak: nat)
    requires Crowd(d, ipLimit, a, p, peak) && a < ipLimit && p <= peak
    ensures Crowd(Apply(d, Ask(Name(a + p), 0)), ipLimit, a, p + 1, if p + 1 > peak then p + 1 else peak)
  {
  }

  lemma {:induction false} MarkJoins(d: Door, ipLimit: nat, a: nat, p: nat, peak: nat)
    requires Crowd(d, ipLimit, a, p, peak) && p > 0
    ensures Crowd(Apply(d, Mark(0)), ipLimit, a + 1, p - 1, peak)
  {
    var d' := Apply(d, Mark(0));
    assert d.pending[0].ip == Name(a);
    forall i: nat | a + 1 <= i ensures Name(i) !in d'.user.active {
      assert |Name(i)| == i && |Name(a)| == a;
    }
  }

  lemma {:induction false} Snoc(ipLimit: int, dataLimit: int, es: seq<Event>, e: Event)
    requires Reached(ipLimit, dataLimit, es).0 && Enabled(Reached(ipLimit, dataLimit, es).1, e)
    ensures Reached(ipLimit, dataLimit, es + [e]) == (true, Apply(Reached(ipLimit, dataLimit, es).1, e))
  {
    assert (es + [e])[..|es|] == es;
  }

  /** A crowd of one less than the limit, admitted one by one. */
  lemma {:induction false} Queue(ipLimit: nat) returns (es: seq<Event>)
    requires ipLimit > 0
    ensures Reached(ipLimit, 0, es).0
    ensures Crowd(Reached(ipLimit, 0, es).1, ipLimit, ipLimit - 1, 0, if ipLimit == 1 then 0 else 1)
  {
    es := [];
    var a: nat := 0;
    while a < ipLimit - 1
      invariant a <= ipLimit - 1
      invariant Reached(ipLimit, 0, es).0
      invariant Crowd(Reached(ipLimit, 0, es).1, ipLimit, a, 0, if a == 0 then 0 else 1)
    {
      var d := Reached(ipLimit, 0, es).1;
      AskJoins(d, ipLimit, a, 0, if a == 0 then 0 else 1);
      Snoc(ipLimit, 0, es, Ask(Name(a), 0));
      es := es + [Ask(Name(a + 0), 0)];
      MarkJoins(Reached(ipLimit, 0, es).1, ipLimit, a, 1, 1);
      Snoc(ipLimit, 0, es, Mark(0));
      es := es + [Mark(0)];
      a := a + 1;
    }
  }

  /** Then p handshakes that all pass the check before any of them is marked. */
  lemma {:induction false} Rush(ipLimit: nat, p: nat) returns (es: seq<Event>)
    requires ipLimit > 0 && p > 0
    ensures Reached(ipLimit, 0, es).0 && Crowd(Reached(ipLimit, 0, es).1, ipLimit, ipLimit - 1, p, p)
  {
    es := Queue(ipLimit);
    var a: nat := ipLimit - 1;
    var q: nat := 0;
    ghost var peak := if a == 0 then 0 else 1;
    while q < p
      invariant q <= p && peak == (if q > 0 then q else if a == 0 then 0 else 1)
      invariant Reached(ipLimit, 0, es).0
      invariant Crowd(Reached(ipLimit, 0, es).1, ipLimit, a, q, peak)
    {
      AskJoins(Reached(ipLimit, 0, es).1, ipLimit, a, q, peak);
      Snoc(ipLimit, 0, es, Ask(Name(a + q), 0));
      es := es + [Ask(Name(a + q), 0)];
      peak := if q + 1 > peak then q + 1 else peak;
      q := q + 1;
    }
  }

  /**
   The bound is tight: for every positive limit and every number P of overlapping handshakes there is a run
   with `ipLimit + P - 1` active IPs.  So the limit itself is guaranteed exactly when handshakes never overlap.
   */
  lemma {:induction false} OverlapExceedsLimit(ipLimit: nat, p: nat) returns (es: seq<Event>)
    requires ipLimit > 0 && p > 0
    ensures var (ok, d) := Reached(ipLimit, 0, es);
            ok && d.peak == p && |d.user.active| == ipLimit + p - 1
  {
    es := Rush(ipLimit, p);
    var a: nat, q := ipLimit - 1, p;
    while q > 0
      invariant q <= p && a + q == ipLimit - 1 + p
      invariant Reached(ipLimit, 0, es).0
      invariant Crowd(Reached(ipLimit, 0, es).1, ipLimit, a, q, p)
    {
      MarkJoins(Reached(ipLimit, 0, es).1, ipLimit, a, q, p);
      Snoc(ipLimit, 0, es, Mark(0));
      es := es + [Mark(0)];
      q, a := q - 1, a + 1;
    }
  }
}
