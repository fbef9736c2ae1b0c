/**
 * The attempt log behind `save_card_attempt` in main.py: the `card_attempts`
 * table, to which the running system only ever appends. The current time and
 * the outcome of the database write are passed in.
 */
module AttemptStore {
  import opened Wrappers

  /** One row of `card_attempts`: its AUTOINCREMENT id, the card id as the
      client sent it, the ISO-8601 time of the write, and the answer. */
  datatype Attempt = Attempt(id: nat, cardId: string, timestamp: string, correct: bool)

  /** Row ids run 1, 2, 3, ... in insertion order: nothing is ever deleted, so
      each AUTOINCREMENT id is one more than the number of earlier rows. */
  predicate WellNumbered(rows: seq<Attempt>) {
    forall i :: 0 <= i < |rows| ==> rows[i].id == i + 1
  }

  /** The table after one successful insert. */
  function Appended(rows: seq<Attempt>, cardId: string, timestamp: string, correct: bool): seq<Attempt> {
    rows + [Attempt(|rows| + 1, cardId, timestamp, correct)]
  }

  /** The rows recorded for one card, in insertion order: the query the index
      on `card_id` serves. */
  function AttemptsFor(rows: seq<Attempt>, cardId: string): (r: seq<Attempt>)
    ensures |r| <= |rows|
    ensures forall k :: 0 <= k < |r| ==> r[k].cardId == cardId && r[k] in rows
    ensures forall i :: 0 <= i < |rows| && rows[i].cardId == cardId ==> rows[i] in r
    ensures WellNumbered(rows) ==> forall j, k :: 0 <= j < k < |r| ==> r[j].id < r[k].id
  {
    if rows == [] then []
    else
      var last := rows[|rows| - 1];
      AttemptsFor(rows[..|rows| - 1], cardId) + (if last.cardId == cardId then [last] else [])
  }

  /** An insert adds exactly one row, at the end, carrying the given card id,
      answer and time; every earlier row is untouched and the numbering holds. */
  lemma AppendKeepsHistory(rows: seq<Attempt>, cardId: string, timestamp: string, correct: bool)
    requires WellNumbered(rows)
    ensures |Appended(rows, cardId, timestamp, correct)| == |rows| + 1
    ensures Appended(rows, cardId, timestamp, correct)[..|rows|] == rows
    ensures WellNumbered(Appended(rows, cardId, timestamp, correct))
    ensures var a := Appended(rows, cardId, timestamp, correct)[|rows|];
      a.cardId == cardId && a.correct == correct && a.timestamp == timestamp
  {
  }

  /** Reading the table back by card id after an insert shows one new row for
      that card and nothing new for any other card. */
  lemma AppendSeenByQuery(rows: seq<Attempt>, cardId: string, timestamp: string, correct: bool, other: string)
    ensures AttemptsFor(Appended(rows, cardId, timestamp, correct), cardId) ==
      AttemptsFor(rows, cardId) + [Attempt(|rows| + 1, cardId, timestamp, correct)]
    ensures other != cardId ==>
      AttemptsFor(Appended(rows, cardId, timestamp, correct), other) == AttemptsFor(rows, other)
  {
  }

  /** The persistent table. */
  class Store {
    var rows: seq<Attempt>

    ghost predicate Valid()
      reads this
    {
      WellNumbered(rows)
    }

    /** `init_database()`: `CREATE TABLE IF NOT EXISTS` keeps the rows an
        earlier run left in the database file (none for a new file). */
    constructor (existing: seq<Attempt>)
      requires WellNumbered(existing)
      ensures Valid() && rows == existing
    {
      rows := existing;
    }

    /** `save_card_attempt(card_id, correct)` at time `now`. `write` is how the
        database answers the INSERT and commit: `Pass`, or `Fail` with the
        error's message, in which case nothing is stored. */
    method SaveCardAttempt(cardId: string, correct: bool, now: string, write: Outcome<string>)
      returns (r: Outcome<string>)
      requires Valid()
      modifies this
      ensures Valid()
      ensures r == write
      ensures write.Pass? ==> rows == Appended(old(rows), cardId, now, correct)
      ensures write.Fail? ==> rows == old(rows)
    {
      if write.Fail? {
        return write;
      }
      AppendKeepsHistory(rows, cardId, now, correct);
      rows := rows + [Attempt(|rows| + 1, cardId, now, correct)];
      r := Pass;
    }
  }
}
