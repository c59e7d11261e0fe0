/** The inventory-booking check: walking the date-sorted entries, keep a running
    signed quantity per lot (account, currency, cost) and report every
    transaction in which a reduction of a lot held at cost leaves that lot
    below zero. */
module Booking {
  import opened Ledger

  /** A lot: one currency, at one cost or at no cost, in one account. */
  datatype LotKey = LotKey(account: Account, currency: Currency, cost: Option<Cost>)

  /** Running signed quantity per lot; a lot that is absent holds zero. */
  type Inventory = map<LotKey, int>

  function LotOf(p: Posting): LotKey
  {
    LotKey(p.account, p.units.currency, p.cost)
  }

  function Quantity(inv: Inventory, lot: LotKey): int
  {
    if lot in inv then inv[lot] else 0
  }

  /** Applies a posting's signed number to its own lot and to no other. */
  function Book(inv: Inventory, p: Posting): (r: Inventory)
    ensures Quantity(r, LotOf(p)) == Quantity(inv, LotOf(p)) + p.units.number
    ensures forall lot :: lot != LotOf(p) ==> Quantity(r, lot) == Quantity(inv, lot)
  {
    inv[LotOf(p) := Quantity(inv, LotOf(p)) + p.units.number]
  }

  /** A reduction of a lot held at cost that leaves the lot at `after`, below zero.
      Augmentations and postings without a cost are never flagged. */
  predicate NegativeReduction(p: Posting, after: int)
  {
    p.cost.Some? && p.units.number < 0 && after < 0
  }

  /** The inventory after booking some postings, and whether one of them was a
      negative reduction. */
  datatype Booked = Booked(inventory: Inventory, negative: bool)

  /** Books the postings of one transaction in their listed order. */
  function BookPostings(inv: Inventory, ps: seq<Posting>): Booked
  {
    if ps == [] then Booked(inv, false)
    else
      var b := BookPostings(inv, ps[..|ps| - 1]);
      var p := ps[|ps| - 1];
      var after := Quantity(b.inventory, LotOf(p)) + p.units.number;
      Booked(Book(b.inventory, p), b.negative || NegativeReduction(p, after))
  }

  datatype BookingState = BookingState(inventory: Inventory, errors: seq<ValidationError>)

  /** One step of the check: a transaction is booked, and reported once if any of
      its postings was a negative reduction; other directives change nothing. */
  function BookEntry(st: BookingState, entry: Directive): BookingState
  {
    if entry.Transaction? then
      var b := BookPostings(st.inventory, entry.postings);
      BookingState(b.inventory,
                   if b.negative then st.errors + [ValidationError(NegativeLot, entry)] else st.errors)
    else st
  }

  /** The state of the check after the entries, processed in list order. */
  function BookEntries(entries: seq<Directive>): (r: BookingState)
    ensures |r.errors| <= |entries|
  {
    if entries == [] then BookingState(map[], [])
    else BookEntry(BookEntries(entries[..|entries| - 1]), entries[|entries| - 1])
  }

  /** The errors `validate_inventory_booking` returns for `entries`. */
  function BookingErrors(entries: seq<Directive>): seq<ValidationError>
  {
    BookEntries(entries).errors
  }

  /** The check itself: one pass over the entries, one inner pass
      over each transaction's postings, updating the running inventory in place. */
  method ValidateInventoryBooking(entries: seq<Directive>) returns (errors: seq<ValidationError>)
    ensures errors == BookingErrors(entries)
  {
    var inv: Inventory := map[];
    errors := [];
    var i := 0;
    while i < |entries|
      invariant 0 <= i <= |entries|
      invariant BookEntries(entries[..i]) == BookingState(inv, errors)
    {
      var entry := entries[i];
      assert entries[..i + 1][..i] == entries[..i];
      if entry.Transaction? {
        ghost var inv0 := inv;
        var negative := false;
        var j := 0;
        while j < |entry.postings|
          invariant 0 <= j <= |entry.postings|
          invariant BookPostings(inv0, entry.postings[..j]) == Booked(inv, negative)
        {
          var p := entry.postings[j];
          assert entry.postings[..j + 1][..j] == entry.postings[..j];
          var lot := LotOf(p);
          var after := (if lot in inv then inv[lot] else 0) + p.units.number;
          inv := inv[lot := after];
          if p.cost.Some? && p.units.number < 0 && after < 0 {
            negative := true;
          }
          j := j + 1;
        }
        assert entry.postings[..j] == entry.postings;
        if negative {
          errors := errors + [ValidationError(NegativeLot, entry)];
        }
      }
      i := i + 1;
    }
    assert entries[..i] == entries;
  }

  // ---------------------------------------------------------------------------
  // An independent reference: the quantity of a lot is the plain sum of the
  // numbers of all postings to it so far.

  function PostingsTotal(ps: seq<Posting>, lot: LotKey): int
  {
    if ps == [] then 0
    else PostingsTotal(ps[..|ps| - 1], lot)
         + (if LotOf(ps[|ps| - 1]) == lot then ps[|ps| - 1].units.number else 0)
  }

  function Held(entries: seq<Directive>, lot: LotKey): int
  {
    if entries == [] then 0
    else
      var last := entries[|entries| - 1];
      Held(entries[..|entries| - 1], lot) + (if last.Transaction? then PostingsTotal(last.postings, lot) else 0)
  }

  lemma {:induction false} BookPostingsQuantity(inv: Inventory, ps: seq<Posting>, lot: LotKey)
    ensures Quantity(BookPostings(inv, ps).inventory, lot) == Quantity(inv, lot) + PostingsTotal(ps, lot)
  {
    if ps != [] {
      BookPostingsQuantity(inv, ps[..|ps| - 1], lot);
    }
  }

  /** The running inventory of the check agrees, lot by lot, with the plain sums. */
  lemma {:induction false} QuantityIsHeld(entries: seq<Directive>, lot: LotKey)
    ensures Quantity(BookEntries(entries).inventory, lot) == Held(entries, lot)
  {
    if entries != [] {
      var prefix := entries[..|entries| - 1];
      QuantityIsHeld(prefix, lot);
      var last := entries[|entries| - 1];
      if last.Transaction? {
        BookPostingsQuantity(BookEntries(prefix).inventory, last.postings, lot);
      }
    }
  }

  /** Posting `j` of `ps`, booked onto `inv` together with the postings before it,
      is a negative reduction. */
  predicate NegativeAt(inv: Inventory, ps: seq<Posting>, j: int)
    requires 0 <= j < |ps|
  {
    NegativeReduction(ps[j], Quantity(inv, LotOf(ps[j])) + PostingsTotal(ps[..j + 1], LotOf(ps[j])))
  }

  lemma {:induction false} BookPostingsNegative(inv: Inventory, ps: seq<Posting>)
    ensures BookPostings(inv, ps).negative <==> exists j :: 0 <= j < |ps| && NegativeAt(inv, ps, j)
  {
    if ps != [] {
      var n := |ps| - 1;
      var init := ps[..n];
      BookPostingsNegative(inv, init);
      forall j | 0 <= j < n
        ensures NegativeAt(inv, init, j) <==> NegativeAt(inv, ps, j)
      {
        assert init[..j + 1] == ps[..j + 1];
      }
      var p := ps[n];
      BookPostingsQuantity(inv, init, LotOf(p));
      assert ps[..n + 1] == ps;
      assert PostingsTotal(ps, LotOf(p)) == PostingsTotal(init, LotOf(p)) + p.units.number;
      var b := BookPostings(inv, init);
      var after := Quantity(b.inventory, LotOf(p)) + p.units.number;
      assert NegativeAt(inv, ps, n) == NegativeReduction(p, after);
      if BookPostings(inv, ps).negative {
        if b.negative {
          var j :| 0 <= j < n && NegativeAt(inv, init, j);
          assert NegativeAt(inv, ps, j);
        } else {
          assert NegativeAt(inv, ps, n);
        }
      } else {
        forall j | 0 <= j < |ps|
          ensures !NegativeAt(inv, ps, j)
        {
          if j < n {
            assert !NegativeAt(inv, init, j);
          }
        }
      }
    }
  }

  /** The transaction `t`, booked after `entries`, has a reduction of a lot held
      at cost that leaves it below zero — stated on the plain sums. */
  predicate Offending(entries: seq<Directive>, t: Directive)
  {
    && t.Transaction?
    && exists j :: 0 <= j < |t.postings|
         && NegativeReduction(t.postings[j],
                              Held(entries, LotOf(t.postings[j]))
                              + PostingsTotal(t.postings[..j + 1], LotOf(t.postings[j])))
  }

  /** Each entry adds exactly one error, carrying the entry, when it is an
      offending transaction, and none otherwise; earlier errors stay as they are. */
  lemma {:induction false} BookingErrorsAppend(entries: seq<Directive>, t: Directive)
    ensures BookingErrors(entries + [t])
         == BookingErrors(entries) + (if Offending(entries, t) then [ValidationError(NegativeLot, t)] else [])
  {
    assert (entries + [t])[..|entries|] == entries;
    if t.Transaction? {
      var inv := BookEntries(entries).inventory;
      BookPostingsNegative(inv, t.postings);
      var ps := t.postings;
      forall j | 0 <= j < |ps|
        ensures NegativeAt(inv, ps, j)
            <==> NegativeReduction(ps[j], Held(entries, LotOf(ps[j])) + PostingsTotal(ps[..j + 1], LotOf(ps[j])))
      {
        QuantityIsHeld(entries, LotOf(ps[j]));
      }
    }
  }

  /** A transaction none of whose postings at cost is a reduction is never
      reported, whatever the lots held before it (even below zero). */
  lemma AugmentationNotReported(entries: seq<Directive>, t: Directive)
    requires t.Transaction?
    requires forall k :: 0 <= k < |t.postings| && t.postings[k].cost.Some? ==> t.postings[k].units.number >= 0
    ensures BookingErrors(entries + [t]) == BookingErrors(entries)
  {
    BookingErrorsAppend(entries, t);
  }

  /** Postings without a cost are not subject to the check. */
  lemma UncostedNotReported(entries: seq<Directive>, t: Directive)
    requires t.Transaction?
    requires forall k :: 0 <= k < |t.postings| ==> t.postings[k].cost.None?
    ensures BookingErrors(entries + [t]) == BookingErrors(entries)
  {
    BookingErrorsAppend(entries, t);
  }

  /** A transaction moving one lot held at cost against a leg without cost (the
      shape of a purchase or sale paid in cash) is reported exactly when the lot
      ends up below zero after a reduction; a reduction to exactly zero is not. */
  lemma CostedLegReportedIff(entries: seq<Directive>, date: Date, narration: string, stock: Posting, cash: Posting)
    requires stock.cost.Some? && cash.cost.None?
    ensures var t := Transaction(date, narration, [stock, cash]);
            (BookingErrors(entries + [t])
             == BookingErrors(entries)
                + (if stock.units.number < 0 && Held(entries, LotOf(stock)) + stock.units.number < 0
                   then [ValidationError(NegativeLot, t)] else []))
  {
    var t := Transaction(date, narration, [stock, cash]);
    BookingErrorsAppend(entries, t);
    assert t.postings[..1] == [stock];
    assert [stock][..0] == [];
    assert PostingsTotal(t.postings[..1], LotOf(stock)) == stock.units.number;
    if Offending(entries, t) {
      var j :| 0 <= j < |t.postings|
               && NegativeReduction(t.postings[j],
                                    Held(entries, LotOf(t.postings[j]))
                                    + PostingsTotal(t.postings[..j + 1], LotOf(t.postings[j])));
      assert j == 0;
    }
  }

  /** Every error is a NegativeLot error about one of the transactions checked. */
  lemma {:induction false} BookingErrorsAbout(entries: seq<Directive>)
    ensures ErrorsAbout(BookingErrors(entries), NegativeLot, entries)
    ensures forall e :: e in BookingErrors(entries) ==> e.entry.Transaction?
  {
    if entries != [] {
      var n := |entries| - 1;
      BookingErrorsAbout(entries[..n]);
      BookingErrorsAppend(entries[..n], entries[n]);
      assert entries[..n] + [entries[n]] == entries;
    }
  }

  /** Errors come in input order: the errors of any prefix of the entries are a
      prefix of the errors of all of them, so no error is ever withdrawn. */
  lemma {:induction false} BookingErrorsPrefix(entries: seq<Directive>, i: nat)
    requires i <= |entries|
    ensures BookingErrors(entries[..i]) <= BookingErrors(entries)
    decreases |entries| - i
  {
    if i < |entries| {
      BookingErrorsPrefix(entries, i + 1);
      BookingErrorsAppend(entries[..i], entries[i]);
      assert entries[..i + 1] == entries[..i] + [entries[i]];
    } else {
      assert entries[..i] == entries;
    }
  }
}
