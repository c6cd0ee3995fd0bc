/** The ledger: the table of expenses keyed by id and the counter that
    hands out the next id, with the two operations that change them,
    `add_expense` and `delete_expense`. Console reads are parameters: the
    texts typed in, the amount as `float()` parsed it, the id as `int()`
    parsed it, and today's date for an empty date answer. */
module Ledger {
  import opened Options
  import opened Text
  import opened Dates
  import opened Validators
  import opened Records

  datatype AddOutcome = Added(id: int) | EmptyCategory | InvalidAmount | InvalidDate

  datatype DeleteOutcome = NothingToDelete | InvalidId | NotFound | Cancelled | Deleted

  /** The confirmation answer, stripped and lower-cased, is "yes" or "y". */
  predicate Confirms(answer: string)
  {
    var a := Lower(Strip(answer));
    a == "yes" || a == "y"
  }

  /** The date an accepted expense is stored with: the stripped answer, or
      today's date as `strftime('%Y-%m-%d')` writes it when that is empty. */
  function StoredDate(date: string, today: Date): string
    requires IsCalendarDate(today)
  {
    if Strip(date) == [] then FormatDate(today) else Strip(date)
  }

  /** The ledger invariant: every id handed out lies below the counter,
      ids grow along the table (so insertion order is id order), and every
      stored record passed the checks of `add_expense`. */
  ghost predicate Consistent(entries: seq<Entry>, counter: int, issued: set<int>)
  {
    && counter >= 1
    && (forall i :: i in issued <==> 1 <= i < counter)
    && IdsIncreasing(entries)
    && (forall e :: e in entries ==> e.id in issued)
    && Recorded(entries)
  }

  /** Storing an accepted record under the counter keeps the invariant,
      and the counter was a fresh id. */
  lemma ConsistentAppend(entries: seq<Entry>, counter: int, issued: set<int>, e: Entry)
    requires Consistent(entries, counter, issued)
    requires e.id == counter && e.expense.category != [] && e.expense.amount > 0.0
    requires ParseDate(e.expense.date).Some?
    ensures counter !in issued && counter !in Ids(entries)
    ensures Consistent(entries + [e], counter + 1, issued + {counter})
  {
    assert IdsIncreasing(entries + [e]) by {
      forall i, j | 0 <= i < j < |entries| + 1 ensures (entries + [e])[i].id < (entries + [e])[j].id {
        if j == |entries| { assert entries[i] in entries; }
      }
    }
    assert Recorded(entries + [e]) by {
      forall x | x in entries + [e]
        ensures x.expense.category != [] && x.expense.amount > 0.0 && ParseDate(x.expense.date).Some?
      {
        if x != e { assert x in entries; }
      }
    }
    assert counter !in Ids(entries) by {
      forall x | x in entries ensures x.id != counter {
        assert x.id in issued;
      }
    }
  }

  /** Removing an entry keeps the invariant. */
  lemma ConsistentWithout(entries: seq<Entry>, counter: int, issued: set<int>, id: int)
    requires Consistent(entries, counter, issued)
    ensures Consistent(Without(entries, id), counter, issued)
  {
    WithoutIncreasing(entries, id);
  }

  class ExpenseLedger {
    var entries: seq<Entry>
    var counter: int
    /** Every id handed out so far, including those deleted since. */
    ghost var Issued: set<int>

    ghost predicate Valid()
      reads this
    {
      Consistent(entries, counter, Issued)
    }

    /** The state the program starts in without a saved file. */
    constructor ()
      ensures Valid() && entries == [] && counter == 1 && Issued == {}
    {
      entries := [];
      counter := 1;
      Issued := {};
    }

    /** `add_expense`: the category must not be empty once stripped, the
        amount must be positive, and a date that is given must be a
        calendar date; then the record is stored under the counter, with
        the category title-cased, and the counter moves on by one. */
    method Add(category: string, amount: Option<real>, date: string, description: string, today: Date)
      returns (outcome: AddOutcome)
      requires Valid() && IsCalendarDate(today)
      modifies this
      ensures Valid()
      ensures outcome.EmptyCategory? <==> Strip(category) == []
      ensures outcome.InvalidAmount? <==> Strip(category) != [] && !ValidateAmount(amount).0
      ensures outcome.InvalidDate? <==>
        Strip(category) != [] && ValidateAmount(amount).0 && Strip(date) != [] && !ValidateDate(Strip(date))
      ensures outcome.Added? ==>
        && outcome.id == old(counter)
        && outcome.id !in old(Issued) && outcome.id !in Ids(old(entries))
        && counter == old(counter) + 1 && Issued == old(Issued) + {outcome.id}
        && entries == old(entries) + [Entry(outcome.id, Expense(Title(Strip(category)), amount.value,
                                                                StoredDate(date, today), Strip(description)))]
        && forall k :: k != outcome.id ==> Lookup(entries, k) == Lookup(old(entries), k)
      ensures !outcome.Added? ==> entries == old(entries) && counter == old(counter) && Issued == old(Issued)
    {
      var name := Strip(category);
      if name == [] {
        return EmptyCategory;
      }
      var (ok, value) := ValidateAmount(amount);
      if !ok {
        return InvalidAmount;
      }
      var day := Strip(date);
      if day == [] {
        day := FormatDate(today);
        ParseFormat(today);
      } else if !ValidateDate(day) {
        return InvalidDate;
      }
      var e := Entry(counter, Expense(Title(name), value, day, Strip(description)));
      TitleAt(name);
      ConsistentAppend(entries, counter, Issued, e);
      forall k ensures Lookup(entries + [e], k) == if k == counter then Some(e.expense) else Lookup(entries, k) {
        LookupAppend(entries, e, k);
      }
      entries := entries + [e];
      outcome := Added(counter);
      Issued := Issued + {counter};
      counter := counter + 1;
    }

    /** `delete_expense`: with an empty table nothing is asked; an id that
        is not an integer, or not in the table, changes nothing; otherwise
        the entry goes only if the answer confirms. The counter never
        moves back, so a deleted id is never handed out again. */
    method Delete(id: Option<int>, answer: string) returns (outcome: DeleteOutcome)
      requires Valid()
      modifies this
      ensures Valid() && counter == old(counter) && Issued == old(Issued)
      ensures outcome == NothingToDelete <==> old(entries) == []
      ensures outcome == InvalidId <==> old(entries) != [] && id.None?
      ensures outcome == NotFound <==> old(entries) != [] && id.Some? && id.value !in Ids(old(entries))
      ensures outcome == Deleted <==>
        old(entries) != [] && id.Some? && id.value in Ids(old(entries)) && Confirms(answer)
      ensures outcome == Deleted ==>
        && entries == Without(old(entries), id.value)
        && id.value !in Ids(entries)
        && forall k :: Lookup(entries, k) == if k == id.value then None else Lookup(old(entries), k)
      ensures outcome != Deleted ==> entries == old(entries)
    {
      if entries == [] {
        return NothingToDelete;
      }
      if id.None? {
        return InvalidId;
      }
      var key := id.value;
      if key !in Ids(entries) {
        return NotFound;
      }
      if !Confirms(answer) {
        return Cancelled;
      }
      forall k ensures Lookup(Without(entries, key), k) == if k == key then None else Lookup(entries, k) {
        LookupWithout(entries, key, k);
      }
      ConsistentWithout(entries, counter, Issued, key);
      entries := Without(entries, key);
      outcome := Deleted;
    }
  }

  /** The answers the scenario below types in, as `strip()` sees them. */
  lemma ScenarioCategory()
    ensures Strip(" food ") == "food"
  {
    assert " food " == [' '] + "food" + [' '];
    StripPadded("food");
  }

  lemma ScenarioRent()
    ensures Strip("rent") == "rent"
  {
    StripNoSpace("rent");
  }

  lemma ScenarioBlank()
    ensures Strip("   ") == []
  {
    StripEmpty("   ");
  }

  /** The date answer of the scenario below is a calendar date. */
  lemma ScenarioDate()
    ensures Strip("2024-02-29") == "2024-02-29" && ValidateDate("2024-02-29")
  {
    StripNoSpace("2024-02-29");
    ParseAccepts();
  }

  /** " Yes " confirms a deletion. */
  lemma ScenarioConfirms()
    ensures Confirms(" Yes ")
  {
    assert " Yes " == [' '] + "Yes" + [' '];
    StripPadded("Yes");
  }

  /** Adding, deleting what was added and adding again never hands out the
      deleted id a second time. */
  method AddDeleteAdd(today: Date)
    requires IsCalendarDate(today)
  {
    ScenarioCategory();
    ScenarioRent();
    ScenarioBlank();
    ScenarioDate();
    ScenarioConfirms();
    var ledger := new ExpenseLedger();
    var first := ledger.Add(" food ", Some(12.5), "2024-02-29", "", today);
    assert first == Added(1);
    assert 1 in Ids(ledger.entries) by { assert ledger.entries[0] in ledger.entries; }
    var gone := ledger.Delete(Some(1), " Yes ");
    assert gone == Deleted;
    var second := ledger.Add("rent", Some(900.0), "", "", today);
    assert second == Added(2);
    var refused := ledger.Add("   ", Some(1.0), "", "", today);
    assert refused == EmptyCategory;
  }
}
