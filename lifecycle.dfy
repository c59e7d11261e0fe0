/** The open/close check: every account follows the life cycle
    Unopened -> Opened -> Closed, driven by its open and close directives in
    list order. A directive the current state does not allow is reported once
    and leaves the state as it was. */
module Lifecycle {
  import opened Ledger

  datatype AccountState = Unopened | Opened | Closed

  /** An account never mentioned is still unopened. */
  function StateOf(states: map<Account, AccountState>, a: Account): AccountState
  {
    if a in states then states[a] else Unopened
  }

  predicate IsLifecycle(d: Directive)
  {
    d.Open? || d.Close?
  }

  /** The transition table: an open is allowed only on an unopened account, a
      close only on an open one. */
  function Transition(s: AccountState, d: Directive): (r: Option<AccountState>)
    requires IsLifecycle(d)
    ensures r.Some? <==> (d.Open? && s == Unopened) || (d.Close? && s == Opened)
    ensures r.Some? ==> r.value != s
  {
    match s
    case Unopened => if d.Open? then Some(Opened) else None
    case Opened => if d.Close? then Some(Closed) else None
    case Closed => None
  }

  /** The error a rejected open or close directive yields. */
  function RejectionOf(d: Directive): ValidationError
    requires IsLifecycle(d)
  {
    ValidationError(if d.Open? then DuplicateOpen else InvalidClose, d)
  }

  datatype LifecycleState = LifecycleState(states: map<Account, AccountState>, errors: seq<ValidationError>)

  function CheckEntry(st: LifecycleState, d: Directive): LifecycleState
  {
    if IsLifecycle(d) then
      match Transition(StateOf(st.states, d.account), d)
      case Some(next) => LifecycleState(st.states[d.account := next], st.errors)
      case None => LifecycleState(st.states, st.errors + [RejectionOf(d)])
    else st
  }

  /** The state of the check after the entries, processed in list order. */
  function CheckEntries(entries: seq<Directive>): (r: LifecycleState)
    ensures |r.errors| <= |entries|
  {
    if entries == [] then LifecycleState(map[], [])
    else CheckEntry(CheckEntries(entries[..|entries| - 1]), entries[|entries| - 1])
  }

  /** The errors `validate_open_close` returns for `entries`. */
  function OpenCloseErrors(entries: seq<Directive>): seq<ValidationError>
  {
    CheckEntries(entries).errors
  }

  /** The check itself: one pass, one map from account to state
      updated in place. */
  method ValidateOpenClose(entries: seq<Directive>) returns (errors: seq<ValidationError>)
    ensures errors == OpenCloseErrors(entries)
  {
    var states: map<Account, AccountState> := map[];
    errors := [];
    var i := 0;
    while i < |entries|
      invariant 0 <= i <= |entries|
      invariant CheckEntries(entries[..i]) == LifecycleState(states, errors)
    {
      var d := entries[i];
      assert entries[..i + 1][..i] == entries[..i];
      if d.Open? || d.Close? {
        var current := if d.account in states then states[d.account] else Unopened;
        if d.Open? && current == Unopened {
          states := states[d.account := Opened];
        } else if d.Close? && current == Opened {
          states := states[d.account := Closed];
        } else if d.Open? {
          errors := errors + [ValidationError(DuplicateOpen, d)];
        } else {
          errors := errors + [ValidationError(InvalidClose, d)];
        }
      }
      i := i + 1;
    }
    assert entries[..i] == entries;
  }

  // ---------------------------------------------------------------------------
  // An independent reference: the state of an account read off the directives
  // that mention it.

  /** Some open directive for `a` occurs in `entries`. */
  predicate HasOpen(entries: seq<Directive>, a: Account)
  {
    exists i :: 0 <= i < |entries| && entries[i].Open? && entries[i].account == a
  }

  /** Some close directive for `a` follows an open directive for `a`. */
  predicate ClosedAfterOpen(entries: seq<Directive>, a: Account)
  {
    exists i, j :: 0 <= i < j < |entries| && entries[i].Open? && entries[i].account == a
                                          && entries[j].Close? && entries[j].account == a
  }

  function ExpectedState(entries: seq<Directive>, a: Account): AccountState
  {
    if !HasOpen(entries, a) then Unopened
    else if ClosedAfterOpen(entries, a) then Closed
    else Opened
  }

  /** An account is unopened until its first open; it is closed once a close
      follows an open, and open in between. Directives about other accounts,
      and rejected directives, do not move it. */
  lemma {:induction false} StateIsExpected(entries: seq<Directive>, a: Account)
    ensures StateOf(CheckEntries(entries).states, a) == ExpectedState(entries, a)
  {
    if entries != [] {
      var n := |entries| - 1;
      var pre := entries[..n];
      var d := entries[n];
      StateIsExpected(pre, a);
      assert forall i :: 0 <= i < n ==> entries[i] == pre[i];
      if HasOpen(pre, a) {
        var i :| 0 <= i < n && pre[i].Open? && pre[i].account == a;
        assert entries[i] == pre[i];
      }
      if ClosedAfterOpen(pre, a) {
        var i, j :| 0 <= i < j < n && pre[i].Open? && pre[i].account == a
                                   && pre[j].Close? && pre[j].account == a;
        assert entries[i] == pre[i] && entries[j] == pre[j];
      }
      if !(IsLifecycle(d) && d.account == a) {
        assert HasOpen(entries, a) == HasOpen(pre, a);
        assert ClosedAfterOpen(entries, a) == ClosedAfterOpen(pre, a);
      } else if d.Open? {
        assert HasOpen(entries, a);
        assert ClosedAfterOpen(entries, a) == ClosedAfterOpen(pre, a);
      } else {
        assert HasOpen(entries, a) == HasOpen(pre, a);
        if HasOpen(pre, a) {
          var i :| 0 <= i < n && pre[i].Open? && pre[i].account == a;
          assert entries[i].Open? && entries[n].Close?;
          assert ClosedAfterOpen(entries, a);
        }
      }
    }
  }

  /** An open is rejected exactly when the account was opened before (whether
      it is still open or already closed); a close is rejected exactly when the
      account was never opened or has already been closed. */
  predicate Rejected(entries: seq<Directive>, d: Directive)
  {
    || (d.Open? && HasOpen(entries, d.account))
    || (d.Close? && (!HasOpen(entries, d.account) || ClosedAfterOpen(entries, d.account)))
  }

  /** Each directive adds exactly one error, about itself, when it is rejected,
      and none otherwise; earlier errors stay as they are. */
  lemma {:induction false} OpenCloseErrorsAppend(entries: seq<Directive>, d: Directive)
    ensures OpenCloseErrors(entries + [d])
         == OpenCloseErrors(entries) + (if Rejected(entries, d) then [RejectionOf(d)] else [])
  {
    assert (entries + [d])[..|entries|] == entries;
    if IsLifecycle(d) {
      StateIsExpected(entries, d.account);
    }
  }

  /** Every error is about one of the open or close directives checked, with
      the kind that directive's rejection carries. */
  lemma {:induction false} OpenCloseErrorsAbout(entries: seq<Directive>)
    ensures forall e :: e in OpenCloseErrors(entries) ==> e.entry in entries && IsLifecycle(e.entry) && e == RejectionOf(e.entry)
  {
    if entries != [] {
      var n := |entries| - 1;
      OpenCloseErrorsAbout(entries[..n]);
      OpenCloseErrorsAppend(entries[..n], entries[n]);
      assert entries[..n] + [entries[n]] == entries;
    }
  }

  /** Errors come in input order: the errors of a prefix are a prefix of the errors. */
  lemma {:induction false} OpenCloseErrorsPrefix(entries: seq<Directive>, i: nat)
    requires i <= |entries|
    ensures OpenCloseErrors(entries[..i]) <= OpenCloseErrors(entries)
    decreases |entries| - i
  {
    if i < |entries| {
      OpenCloseErrorsPrefix(entries, i + 1);
      OpenCloseErrorsAppend(entries[..i], entries[i]);
      assert entries[..i + 1] == entries[..i] + [entries[i]];
    } else {
      assert entries[..i] == entries;
    }
  }
}
