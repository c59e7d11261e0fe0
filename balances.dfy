/** The duplicate-balance check: balance assertions are grouped by (date,
    account). The first assertion of a group fixes its amount; every later
    assertion of the group whose amount (number or currency) differs from it is
    reported, while identical duplicates are harmless. */
module Balances {
  import opened Ledger

  datatype BalanceKey = BalanceKey(date: Date, account: Account)

  function KeyOf(d: Directive): BalanceKey
    requires d.Balance?
  {
    BalanceKey(d.date, d.account)
  }

  /** The first amount seen per group, and the errors so far. */
  datatype BalanceState = BalanceState(first: map<BalanceKey, Amount>, errors: seq<ValidationError>)

  function CheckBalance(st: BalanceState, d: Directive): BalanceState
  {
    if d.Balance? then
      var key := KeyOf(d);
      if key !in st.first then BalanceState(st.first[key := d.amount], st.errors)
      else if st.first[key] != d.amount then BalanceState(st.first, st.errors + [ValidationError(ConflictingBalance, d)])
      else st
    else st
  }

  /** The state of the check after the entries, processed in list order. */
  function CheckBalances(entries: seq<Directive>): (r: BalanceState)
    ensures |r.errors| <= |entries|
  {
    if entries == [] then BalanceState(map[], [])
    else CheckBalance(CheckBalances(entries[..|entries| - 1]), entries[|entries| - 1])
  }

  /** The errors `validate_duplicate_balances` returns for `entries`. */
  function DuplicateBalanceErrors(entries: seq<Directive>): seq<ValidationError>
  {
    CheckBalances(entries).errors
  }

  /** The check itself: one pass, one map from (date, account) to
      the first amount asserted, updated in place. */
  method ValidateDuplicateBalances(entries: seq<Directive>) returns (errors: seq<ValidationError>)
    ensures errors == DuplicateBalanceErrors(entries)
  {
    var first: map<BalanceKey, Amount> := map[];
    errors := [];
    var i := 0;
    while i < |entries|
      invariant 0 <= i <= |entries|
      invariant CheckBalances(entries[..i]) == BalanceState(first, errors)
    {
      var d := entries[i];
      assert entries[..i + 1][..i] == entries[..i];
      if d.Balance? {
        var key := BalanceKey(d.date, d.account);
        if key !in first {
          first := first[key := d.amount];
        } else if first[key] != d.amount {
          errors := errors + [ValidationError(ConflictingBalance, d)];
        }
      }
      i := i + 1;
    }
    assert entries[..i] == entries;
  }

  // ---------------------------------------------------------------------------
  // An independent reference: the amount of the first assertion of a group,
  // found by searching the entries from the front.

  function FirstAmount(entries: seq<Directive>, key: BalanceKey): Option<Amount>
  {
    if entries == [] then None
    else if entries[0].Balance? && KeyOf(entries[0]) == key then Some(entries[0].amount)
    else FirstAmount(entries[1..], key)
  }

  lemma {:induction false} FirstAmountAppend(entries: seq<Directive>, d: Directive, key: BalanceKey)
    ensures FirstAmount(entries + [d], key)
         == if FirstAmount(entries, key).Some? then FirstAmount(entries, key)
            else if d.Balance? && KeyOf(d) == key then Some(d.amount)
            else None
  {
    if entries == [] {
      assert [d][1..] == [];
    } else {
      assert (entries + [d])[1..] == entries[1..] + [d];
      FirstAmountAppend(entries[1..], d, key);
    }
  }

  /** The amount the check remembers for a group is the amount of the group's
      first assertion, and a group is remembered exactly when it has one. */
  lemma {:induction false} FirstIsFirstAmount(entries: seq<Directive>, key: BalanceKey)
    ensures key in CheckBalances(entries).first <==> FirstAmount(entries, key).Some?
    ensures key in CheckBalances(entries).first ==> FirstAmount(entries, key) == Some(CheckBalances(entries).first[key])
  {
    if entries != [] {
      var n := |entries| - 1;
      FirstIsFirstAmount(entries[..n], key);
      FirstAmountAppend(entries[..n], entries[n], key);
      assert entries[..n] + [entries[n]] == entries;
    }
  }

  /** `d` is an assertion whose group already has a first assertion with another amount. */
  predicate Conflicts(entries: seq<Directive>, d: Directive)
  {
    d.Balance? && FirstAmount(entries, KeyOf(d)).Some? && FirstAmount(entries, KeyOf(d)).value != d.amount
  }

  /** Each directive adds exactly one error, about itself, when it conflicts with
      the first assertion of its group, and none otherwise. */
  lemma {:induction false} DuplicateBalanceErrorsAppend(entries: seq<Directive>, d: Directive)
    ensures DuplicateBalanceErrors(entries + [d])
         == DuplicateBalanceErrors(entries) + (if Conflicts(entries, d) then [ValidationError(ConflictingBalance, d)] else [])
  {
    assert (entries + [d])[..|entries|] == entries;
    if d.Balance? {
      FirstIsFirstAmount(entries, KeyOf(d));
    }
  }

  /** Two assertions opening a new (date, account) group yield exactly one error,
      on the second and so dated that day, when their amounts differ, and none
      when they are identical. */
  lemma AssertionPair(entries: seq<Directive>, b1: Directive, b2: Directive)
    requires b1.Balance? && b2.Balance? && KeyOf(b1) == KeyOf(b2)
    requires FirstAmount(entries, KeyOf(b1)).None?
    ensures DuplicateBalanceErrors(entries + [b1, b2])
         == DuplicateBalanceErrors(entries)
            + (if b1.amount != b2.amount then [ValidationError(ConflictingBalance, b2)] else [])
  {
    DuplicateBalanceErrorsAppend(entries, b1);
    DuplicateBalanceErrorsAppend(entries + [b1], b2);
    FirstAmountAppend(entries, b1, KeyOf(b1));
    assert entries + [b1] + [b2] == entries + [b1, b2];
  }

  /** Two assertions for different dates or different accounts, each first of
      its group, never yield an error, whatever their amounts. */
  lemma DistinctGroupsPair(entries: seq<Directive>, b1: Directive, b2: Directive)
    requires b1.Balance? && b2.Balance? && KeyOf(b1) != KeyOf(b2)
    requires FirstAmount(entries, KeyOf(b1)).None? && FirstAmount(entries, KeyOf(b2)).None?
    ensures DuplicateBalanceErrors(entries + [b1, b2]) == DuplicateBalanceErrors(entries)
  {
    DuplicateBalanceErrorsAppend(entries, b1);
    DuplicateBalanceErrorsAppend(entries + [b1], b2);
    FirstAmountAppend(entries, b1, KeyOf(b2));
    assert entries + [b1] + [b2] == entries + [b1, b2];
  }

  /** In date-sorted entries, a group dated after every entry seen so far has no
      first assertion yet. */
  lemma {:induction false} LaterGroupIsNew(entries: seq<Directive>, key: BalanceKey)
    requires forall i :: 0 <= i < |entries| ==> entries[i].date < key.date
    ensures FirstAmount(entries, key).None?
  {
    if entries != [] {
      assert forall i :: 0 <= i < |entries| - 1 ==> entries[1..][i] == entries[i + 1];
      LaterGroupIsNew(entries[1..], key);
    }
  }

  /** Every error is a ConflictingBalance error about a balance assertion checked,
      in a group that has a first assertion. */
  lemma {:induction false} DuplicateBalanceErrorsAbout(entries: seq<Directive>)
    ensures ErrorsAbout(DuplicateBalanceErrors(entries), ConflictingBalance, entries)
    ensures forall e :: e in DuplicateBalanceErrors(entries) ==> e.entry.Balance? && FirstAmount(entries, KeyOf(e.entry)).Some?
  {
    if entries != [] {
      var n := |entries| - 1;
      DuplicateBalanceErrorsAbout(entries[..n]);
      DuplicateBalanceErrorsAppend(entries[..n], entries[n]);
      assert entries[..n] + [entries[n]] == entries;
      forall e | e in DuplicateBalanceErrors(entries)
        ensures FirstAmount(entries, KeyOf(e.entry)).Some?
      {
        FirstAmountAppend(entries[..n], entries[n], KeyOf(e.entry));
      }
    }
  }

  /** Errors come in input order: the errors of a prefix are a prefix of the errors. */
  lemma {:induction false} DuplicateBalanceErrorsPrefix(entries: seq<Directive>, i: nat)
    requires i <= |entries|
    ensures DuplicateBalanceErrors(entries[..i]) <= DuplicateBalanceErrors(entries)
    decreases |entries| - i
  {
    if i < |entries| {
      DuplicateBalanceErrorsPrefix(entries, i + 1);
      DuplicateBalanceErrorsAppend(entries[..i], entries[i]);
      assert entries[..i + 1] == entries[..i] + [entries[i]];
    } else {
      assert entries[..i] == entries;
    }
  }
}
