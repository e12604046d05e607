/** A Redis counter that expires: INCR, and an expiry set only by the increment that creates the
    key. The fixed-window limiter and the quotas are both built on it. */
module RedisCounter {
  import opened RateLimit
  import opened Logs

  datatype Counter = Absent | Counter(value: int, deadline: int)

  predicate Live(b: Boundary, c: Counter, now: int) { c.Counter? && !Expired(b, now, c.deadline) }

  /** INCR, then EXPIRE if the new value is 1. */
  function Incr(b: Boundary, c: Counter, now: int, ttl: int): (after: Counter)
    ensures after.Counter?
  {
    var value := if Live(b, c, now) then c.value + 1 else 1;
    Counter(value, if value == 1 then now + ttl else c.deadline)
  }

  /** One increment, with the expiry it would set. */
  datatype Hit = Hit(now: int, ttl: int)

  /** What a run leaves: the counter, how many times the key was created, and for every increment
      the lifetime it fell into with the value it returned. */
  datatype Mark = Mark(life: nat, value: int)
  datatype Trace = Trace(counter: Counter, lives: nat, marks: Log<Mark>)

  function Run(b: Boundary, hits: Log<Hit>): Trace {
    match hits
    case Empty => Trace(Absent, 0, Empty)
    case More(before, hit) =>
      var t := Run(b, before);
      var after := Incr(b, t.counter, hit.now, hit.ttl);
      var life := if Live(b, t.counter, hit.now) then t.lives else t.lives + 1;
      Trace(after, life, More(t.marks, Mark(life, after.value)))
  }

  /** Increments in one lifetime, and how many of them returned at most `limit`. */
  function InLife(marks: Log<Mark>, life: nat): nat {
    match marks
    case Empty => 0
    case More(before, m) => InLife(before, life) + if m.life == life then 1 else 0
  }

  function WithinLimit(marks: Log<Mark>, life: nat, limit: int): nat {
    match marks
    case Empty => 0
    case More(before, m) =>
      WithinLimit(before, life, limit) + if m.life == life && m.value <= limit then 1 else 0
  }

  /** Within a lifetime the counter returns 1, 2, 3, ...: the value of an increment is its place in
      its lifetime. So exactly the first `limit` increments of every lifetime stay within `limit`. */
  lemma {:induction false} ValueIsPlace(b: Boundary, hits: Log<Hit>, life: nat, limit: nat)
    ensures var t := Run(b, hits);
            && (t.counter.Counter? ==> t.counter.value == InLife(t.marks, t.lives) && t.lives > 0)
            && (t.lives < life ==> InLife(t.marks, life) == 0)
            && (t.marks.More? ==> t.marks.last.value == InLife(t.marks, t.marks.last.life))
            && WithinLimit(t.marks, life, limit)
               == (if InLife(t.marks, life) <= limit then InLife(t.marks, life) else limit)
  {
    if hits.More? {
      ValueIsPlace(b, hits.before, life, limit);
      ValueIsPlace(b, hits.before, Run(b, hits).lives, limit);
    }
  }
}
