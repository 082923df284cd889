/**
 * Values of the ledger store: calendar dates, ledger entries and the rows the
 * store lists, together with the orders the store's queries sort by.
 *
 * Text is compared the way SQLite's default BINARY collation compares it:
 * character by character on code points (UTF-8 byte order is code-point
 * order), a proper prefix sorting first.
 */
module LedgerTypes {

  datatype Option<+T> = None | Some(value: T)

  /** A calendar date, the meaning of a `YYYY-MM-DD` string under `date(...)`. */
  datatype Date = Date(year: int, month: int, day: int)

  /** `a` is an earlier calendar day than `b`. */
  predicate DateBefore(a: Date, b: Date)
  {
    a.year < b.year
    || (a.year == b.year && (a.month < b.month || (a.month == b.month && a.day < b.day)))
  }

  lemma DateTrichotomy(a: Date, b: Date)
    ensures a == b || DateBefore(a, b) || DateBefore(b, a)
    ensures !(DateBefore(a, b) && DateBefore(b, a))
  {
  }

  /** `a` sorts strictly before `b` under SQLite's BINARY collation. */
  predicate LexLess(a: string, b: string)
    decreases |a|
  {
    if |a| == 0 then |b| > 0
    else if |b| == 0 then false
    else a[0] < b[0] || (a[0] == b[0] && LexLess(a[1..], b[1..]))
  }

  lemma {:induction false} LexIrreflexive(a: string)
    ensures !LexLess(a, a)
    decreases |a|
  {
    if |a| > 0 {
      LexIrreflexive(a[1..]);
    }
  }

  lemma {:induction false} LexAsymmetric(a: string, b: string)
    requires LexLess(a, b)
    ensures !LexLess(b, a)
    decreases |a|
  {
    if |a| > 0 && |b| > 0 && a[0] == b[0] {
      LexAsymmetric(a[1..], b[1..]);
    }
  }

  lemma {:induction false} LexTransitive(a: string, b: string, c: string)
    requires LexLess(a, b) && LexLess(b, c)
    ensures LexLess(a, c)
    decreases |a|
  {
    if |a| > 0 && a[0] == b[0] && b[0] == c[0] {
      LexTransitive(a[1..], b[1..], c[1..]);
    }
  }

  lemma {:induction false} LexTotal(a: string, b: string)
    requires a != b
    ensures LexLess(a, b) || LexLess(b, a)
    decreases |a|
  {
    if |a| > 0 && |b| > 0 && a[0] == b[0] {
      assert a == [a[0]] + a[1..] && b == [b[0]] + b[1..];
      LexTotal(a[1..], b[1..]);
    }
  }

  /**
   * One ledger line: a date, an optional `HH:MM` time (NULL in rows written
   * before the time column existed), a category, an optional description and
   * a signed amount (income when >= 0, expense when < 0).
   */
  datatype Entry = Entry(dt: Date, tm: Option<string>, category: string,
                         description: Option<string>, amount: real)

  /** A stored entry together with the id the store assigned to it. */
  datatype Row = Row(id: int, entry: Entry)

  /** The time a row is sorted by: `ifnull(tm, '00:00')`. */
  function TimeKey(e: Entry): string
  {
    match e.tm
    case None => "00:00"
    case Some(t) => t
  }

  /**
   * `a` is listed before `b` by `ORDER BY date(dt) DESC, ifnull(tm,'00:00') DESC, id DESC`.
   */
  predicate Precedes(a: Row, b: Row)
  {
    DateBefore(b.entry.dt, a.entry.dt)
    || (a.entry.dt == b.entry.dt
        && (LexLess(TimeKey(b.entry), TimeKey(a.entry))
            || (TimeKey(a.entry) == TimeKey(b.entry) && a.id > b.id)))
  }

  lemma PrecedesIrreflexive(a: Row)
    ensures !Precedes(a, a)
  {
    LexIrreflexive(TimeKey(a.entry));
  }

  lemma PrecedesAsymmetric(a: Row, b: Row)
    requires Precedes(a, b)
    ensures !Precedes(b, a)
  {
    DateTrichotomy(a.entry.dt, b.entry.dt);
    if a.entry.dt == b.entry.dt && LexLess(TimeKey(b.entry), TimeKey(a.entry)) {
      LexAsymmetric(TimeKey(b.entry), TimeKey(a.entry));
    } else if a.entry.dt == b.entry.dt {
      LexIrreflexive(TimeKey(a.entry));
    }
  }

  lemma PrecedesTransitive(a: Row, b: Row, c: Row)
    requires Precedes(a, b) && Precedes(b, c)
    ensures Precedes(a, c)
  {
    var ta, tb, tc := TimeKey(a.entry), TimeKey(b.entry), TimeKey(c.entry);
    if a.entry.dt == b.entry.dt == c.entry.dt {
      if LexLess(tb, ta) && LexLess(tc, tb) {
        LexTransitive(tc, tb, ta);
      }
    }
  }

  /** Since ids are unique, the listing order is total. */
  lemma PrecedesTotal(a: Row, b: Row)
    requires a.id != b.id
    ensures Precedes(a, b) || Precedes(b, a)
  {
    DateTrichotomy(a.entry.dt, b.entry.dt);
    if TimeKey(a.entry) != TimeKey(b.entry) {
      LexTotal(TimeKey(a.entry), TimeKey(b.entry));
    }
  }

  /** `rs` is listed in strictly decreasing order of the listing key. */
  predicate StrictlyListed(rs: seq<Row>)
  {
    forall i, j :: 0 <= i < j < |rs| ==> Precedes(rs[i], rs[j])
  }
}
