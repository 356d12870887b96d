/** Filtering the low-value invoices out of a repository
    (stubbing_invoices/src/main.rs; the same filter is repeated in
    stubbing_external_service/src/main.rs). The repository is the sequence
    its `all` method returns. */
module InvoiceFilter {

  datatype Invoice = Invoice(to: string, value: int)

  /** Invoices worth less than this are low-valued. */
  const Threshold: int := 100

  predicate IsLowValue(inv: Invoice) {
    inv.value < Threshold
  }

  /** `a` can be obtained from `b` by deleting elements, so its elements keep
      their relative order. */
  predicate IsSubsequence<T(==)>(a: seq<T>, b: seq<T>) {
    if |a| == 0 then true
    else if |b| == 0 then false
    else if a[0] == b[0] then IsSubsequence(a[1..], b[1..])
    else IsSubsequence(a, b[1..])
  }

  /** `low_value_invoices`: the invoices of the repository worth less than
      100, in repository order. */
  function LowValueInvoices(all: seq<Invoice>): (r: seq<Invoice>)
    ensures forall i :: 0 <= i < |r| ==> IsLowValue(r[i])
    ensures forall inv :: inv in all && IsLowValue(inv) ==> inv in r
  {
    if |all| == 0 then []
    else if IsLowValue(all[0]) then [all[0]] + LowValueInvoices(all[1..])
    else LowValueInvoices(all[1..])
  }

  /** Each low-value invoice is kept as many times as the repository holds
      it, and no other invoice is kept. */
  lemma {:induction false} FilterKeepsCounts(all: seq<Invoice>)
    ensures forall inv :: multiset(LowValueInvoices(all))[inv] == if IsLowValue(inv) then multiset(all)[inv] else 0
  {
    if |all| > 0 {
      var rest := LowValueInvoices(all[1..]);
      FilterKeepsCounts(all[1..]);
      assert all == [all[0]] + all[1..];
      assert multiset(all) == multiset{all[0]} + multiset(all[1..]);
      if IsLowValue(all[0]) {
        assert multiset(LowValueInvoices(all)) == multiset{all[0]} + multiset(rest);
      } else {
        assert LowValueInvoices(all) == rest;
      }
    }
  }

  /** The kept invoices are in repository order. */
  lemma {:induction false} FilterKeepsOrder(all: seq<Invoice>)
    ensures IsSubsequence(LowValueInvoices(all), all)
  {
    if |all| > 0 {
      FilterKeepsOrder(all[1..]);
      var rest := LowValueInvoices(all[1..]);
      if IsLowValue(all[0]) {
        assert ([all[0]] + rest)[1..] == rest;
      } else if |rest| > 0 {
        // The first kept invoice is low-valued and the head is not.
        assert rest[0] != all[0];
      }
    }
  }

  /** Filtering an already filtered list changes nothing. */
  lemma {:induction false} FilterIdempotent(all: seq<Invoice>)
    ensures LowValueInvoices(LowValueInvoices(all)) == LowValueInvoices(all)
  {
    if |all| > 0 {
      FilterIdempotent(all[1..]);
      if IsLowValue(all[0]) {
        assert ([all[0]] + LowValueInvoices(all[1..]))[1..] == LowValueInvoices(all[1..]);
      }
    }
  }

  /** The filter of a concatenation is the concatenation of the filters. */
  lemma {:induction false} FilterAppend(a: seq<Invoice>, b: seq<Invoice>)
    ensures LowValueInvoices(a + b) == LowValueInvoices(a) + LowValueInvoices(b)
  {
    if |a| == 0 {
      assert a + b == b;
    } else {
      assert (a + b)[1..] == a[1..] + b;
      FilterAppend(a[1..], b);
    }
  }

  /** An empty repository gives no invoices. */
  lemma EmptyRepository()
    ensures LowValueInvoices([]) == []
  {
  }

  /** At the boundary, 99 is kept and 100 is dropped. */
  lemma Boundary(to: string)
    ensures LowValueInvoices([Invoice(to, 99)]) == [Invoice(to, 99)]
    ensures LowValueInvoices([Invoice(to, 100)]) == []
  {
  }

  /** A mixed repository of 20, 99 and 100 keeps 20 and 99. */
  lemma MixedExample()
    ensures var mauricio, steve, frank := Invoice("Mauricio", 20), Invoice("Steve", 99), Invoice("Frank", 100);
      LowValueInvoices([mauricio, steve, frank]) == [mauricio, steve]
  {
    var mauricio, steve, frank := Invoice("Mauricio", 20), Invoice("Steve", 99), Invoice("Frank", 100);
    FilterAppend([mauricio], [steve, frank]);
    FilterAppend([steve], [frank]);
  }
}
