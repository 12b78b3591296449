/** The dashboard: the header title chosen from the path, and the overview's
    figures over the fetched invoice list (total sales, pending invoices,
    unique customers, recent activity). */
module Dashboard {
  import opened Base
  import opened Text
  import opened JsNumber
  import opened InvoiceModel

  // ---------------------------------------------------------------------
  // Title

  const CreateTitle := "Create New Invoice"
  const InvoicesTitle := "View All Invoices"
  const RatesTitle := "Update Product Rates"
  const OverviewTitle := "Dashboard Overview"

  /** `getTitle(pathname)`: the first matching path fragment decides. */
  function GetTitle(pathname: string): (t: string)
    ensures t in [CreateTitle, InvoicesTitle, RatesTitle, OverviewTitle]
  {
    if Includes(pathname, "/create") then CreateTitle
    else if Includes(pathname, "/invoices") then InvoicesTitle
    else if Includes(pathname, "/rates") then RatesTitle
    else OverviewTitle
  }

  /** Each title is chosen exactly when its fragment is present and no
      fragment checked before it is. */
  lemma TitlePriority(pathname: string)
    ensures GetTitle(pathname) == CreateTitle <==> Includes(pathname, "/create")
    ensures GetTitle(pathname) == InvoicesTitle
            <==> !Includes(pathname, "/create") && Includes(pathname, "/invoices")
    ensures GetTitle(pathname) == RatesTitle
            <==> !Includes(pathname, "/create") && !Includes(pathname, "/invoices") && Includes(pathname, "/rates")
    ensures GetTitle(pathname) == OverviewTitle
            <==> !Includes(pathname, "/create") && !Includes(pathname, "/invoices") && !Includes(pathname, "/rates")
  {
  }

  /** `t` occurs in `s` at index 0. */
  lemma IncludesAtStart(s: string, t: string)
    requires |t| <= |s| && s[..|t|] == t
    ensures Includes(s, t)
  {
    assert OccursAt(s, t, 0);
  }

  /** `t` is not in `s` when every place that holds the first character of
      `t` is followed by something other than its second. */
  lemma NotIncludesAfterSlash(s: string, t: string)
    requires |t| >= 2
    requires forall i :: 0 <= i < |s| - 1 && s[i] == t[0] ==> s[i + 1] != t[1]
    ensures !Includes(s, t)
  {
    forall i: nat | i + |t| <= |s|
      ensures !OccursAt(s, t, i)
    {
      var w := s[i..i + |t|];
      assert w[0] == s[i] && w[1] == s[i + 1];
    }
  }

  /** The dashboard's own routes get their titles. */
  lemma RouteTitles()
    ensures GetTitle("/dashboard") == OverviewTitle
    ensures GetTitle("/dashboard/create") == CreateTitle
    ensures GetTitle("/dashboard/invoices") == InvoicesTitle
    ensures GetTitle("/dashboard/rates") == RatesTitle
  {
    NotIncludesAfterSlash("/dashboard", "/create");
    NotIncludesAfterSlash("/dashboard", "/invoices");
    NotIncludesAfterSlash("/dashboard", "/rates");
    assert "/dashboard/create"[10..] == "/create";
    IncludesAtStart("/dashboard/create"[10..], "/create");
    assert OccursAt("/dashboard/create", "/create", 10);
    NotIncludesAfterSlash("/dashboard/invoices", "/create");
    assert OccursAt("/dashboard/invoices", "/invoices", 10);
    NotIncludesAfterSlash("/dashboard/rates", "/create");
    NotIncludesAfterSlash("/dashboard/rates", "/invoices");
    assert OccursAt("/dashboard/rates", "/rates", 10);
  }

  // ---------------------------------------------------------------------
  // Overview figures

  /** An invoice as the list endpoint returns it, with the `paid` flag the
      overview reads. */
  datatype Listed = Listed(record: Invoice, paid: Option<bool>)

  /** A stored invoice as listed: the schema has no `paid` path, so the
      flag is never there. */
  function FromStored(inv: Invoice): (l: Listed)
    ensures l.record == inv && l.paid.None?
  {
    Listed(inv, None)
  }

  function FromStoredAll(invoices: seq<Invoice>): (ls: seq<Listed>)
    ensures |ls| == |invoices|
    ensures forall i :: 0 <= i < |invoices| ==> ls[i] == FromStored(invoices[i])
  {
    seq(|invoices|, i requires 0 <= i < |invoices| => FromStored(invoices[i]))
  }

  /** `curr.grandTotal || 0`. */
  function SaleOf(l: Listed): real {
    l.record.fields.grandTotal.GetOr(0.0)
  }

  /** `data.reduce((acc, curr) => acc + (curr.grandTotal || 0), 0)`: a left
      fold from 0. */
  function TotalSales(list: seq<Listed>): real
    decreases |list|
  {
    if list == [] then 0.0 else TotalSales(list[..|list| - 1]) + SaleOf(list[|list| - 1])
  }

  /** The total of a list is the total of any split of it, so it is the
      sum of the grand totals, a missing one adding nothing. */
  lemma {:induction false} TotalSalesConcat(a: seq<Listed>, b: seq<Listed>)
    ensures TotalSales(a + b) == TotalSales(a) + TotalSales(b)
    decreases |b|
  {
    if b == [] {
      assert a + b == a;
    } else {
      assert (a + b)[..|a + b| - 1] == a + b[..|b| - 1];
      assert (a + b)[|a + b| - 1] == b[|b| - 1];
      TotalSalesConcat(a, b[..|b| - 1]);
    }
  }

  lemma TotalSalesEmptyAndSingle(l: Listed)
    ensures TotalSales([]) == 0.0
    ensures TotalSales([l]) == (if l.record.fields.grandTotal.Some? then l.record.fields.grandTotal.value else 0.0)
  {
    assert [l][..0] == [];
  }

  /** Totals of non-negative grand totals are non-negative and bound each
      grand total. */
  lemma {:induction false} TotalSalesBounds(list: seq<Listed>, k: nat)
    requires forall i :: 0 <= i < |list| ==> SaleOf(list[i]) >= 0.0
    requires k < |list|
    ensures TotalSales(list) >= SaleOf(list[k]) >= 0.0
    decreases |list|
  {
    var front := list[..|list| - 1];
    TotalSalesNonNegative(front);
    if k < |list| - 1 {
      TotalSalesBounds(front, k);
    }
  }

  lemma {:induction false} TotalSalesNonNegative(list: seq<Listed>)
    requires forall i :: 0 <= i < |list| ==> SaleOf(list[i]) >= 0.0
    ensures TotalSales(list) >= 0.0
    decreases |list|
  {
    if list != [] {
      TotalSalesNonNegative(list[..|list| - 1]);
    }
  }

  /** The card text `₹ ${totalSales.toFixed(2)}`. */
  function SalesLabel(total: real): (s: string)
    ensures |s| >= 2 && s[..2] == "\U{20B9} "
    ensures ParseFloat(s[2..]) == Some(Fixed2(total))
  {
    var text := ToFixed2(total);
    assert ("\U{20B9} " + text)[2..] == text;
    ParseToFixed2(total);
    "\U{20B9} " + text
  }

  /** `!inv.paid`. */
  predicate Pending(l: Listed) {
    l.paid != Some(true)
  }

  /** `data.filter(inv => !inv.paid).length`. */
  function PendingCount(list: seq<Listed>): (n: nat)
    ensures n <= |list|
    decreases |list|
  {
    if list == [] then 0
    else (if Pending(list[0]) then 1 else 0) + PendingCount(list[1..])
  }

  /** Every invoice is counted exactly when none is marked paid. */
  lemma {:induction false} PendingCountAll(list: seq<Listed>)
    ensures PendingCount(list) == |list| <==> forall i :: 0 <= i < |list| ==> Pending(list[i])
    ensures PendingCount(list) == 0 <==> forall i :: 0 <= i < |list| ==> !Pending(list[i])
    decreases |list|
  {
    if list != [] {
      PendingCountAll(list[1..]);
      assert forall i :: 1 <= i < |list| ==> list[i] == list[1..][i - 1];
    }
  }

  /** Stored invoices carry no `paid` flag, so all of them are pending. */
  lemma StoredAllPending(invoices: seq<Invoice>)
    ensures PendingCount(FromStoredAll(invoices)) == |invoices|
  {
    PendingCountAll(FromStoredAll(invoices));
  }

  /** `inv.customer?.phone`; `None` stands for `undefined`. */
  function PhoneOf(l: Listed): Option<string> {
    match l.record.fields.customer
    case None => None
    case Some(c) => c.phone
  }

  function Phones(list: seq<Listed>): (ps: seq<Option<string>>)
    ensures |ps| == |list|
    ensures forall i :: 0 <= i < |list| ==> ps[i] == PhoneOf(list[i])
  {
    seq(|list|, i requires 0 <= i < |list| => PhoneOf(list[i]))
  }

  predicate NoDuplicates<T(==)>(s: seq<T>) {
    forall i, j :: 0 <= i < j < |s| ==> s[i] != s[j]
  }

  /** `Array.from(new Set(values))`: each value once, in order of first
      appearance. */
  function Distinct<T(==)>(values: seq<T>): (d: seq<T>)
    ensures NoDuplicates(d)
    ensures (set x | x in d) == (set x | x in values)
    ensures |d| <= |values|
    decreases |values|
  {
    if values == [] then []
    else
      var init := values[..|values| - 1];
      var front := Distinct(init);
      var last := values[|values| - 1];
      assert values == init + [last];
      assert (set x | x in values) == (set x | x in init) + {last};
      assert (set x | x in front + [last]) == (set x | x in front) + {last};
      if last in front then front else front + [last]
  }

  /** The position where `x` first appears in `values`. */
  function FirstIndex<T(==)>(values: seq<T>, x: T): (k: nat)
    requires x in values
    ensures k < |values| && values[k] == x
    ensures forall m :: 0 <= m < k ==> values[m] != x
  {
    if values[0] == x then 0
    else
      var k := 1 + FirstIndex(values[1..], x);
      assert forall m :: 1 <= m < k ==> values[m] == values[1..][m - 1];
      k
  }

  /** Appending a value does not move the first appearance of a value
      already present. */
  lemma FirstIndexAppend<T>(init: seq<T>, last: T, x: T)
    requires x in init
    ensures FirstIndex(init + [last], x) == FirstIndex(init, x)
  {
    var a := FirstIndex(init + [last], x);
    var b := FirstIndex(init, x);
    assert (init + [last])[b] == x;
    assert forall m :: 0 <= m < |init| ==> (init + [last])[m] == init[m];
  }

  /** The values of `Distinct` follow the order in which they first
      appear. */
  lemma {:induction false} DistinctFirstAppearance<T>(values: seq<T>, i: nat, j: nat)
    requires i < j < |Distinct(values)|
    ensures Distinct(values)[i] in values && Distinct(values)[j] in values
    ensures FirstIndex(values, Distinct(values)[i]) < FirstIndex(values, Distinct(values)[j])
    decreases |values|
  {
    var d := Distinct(values);
    var init := values[..|values| - 1];
    var last := values[|values| - 1];
    var front := Distinct(init);
    assert values == init + [last];
    DistinctMember(values, d[i]);
    DistinctMember(values, d[j]);
    if j < |front| {
      assert d[i] == front[i] && d[j] == front[j];
      DistinctFirstAppearance(init, i, j);
      FirstIndexAppend(init, last, d[i]);
      FirstIndexAppend(init, last, d[j]);
    } else {
      assert d == front + [last] && d[j] == last && last !in front;
      DistinctMember(init, front[i]);
      DistinctMember(init, last);
      FirstIndexAppend(init, last, d[i]);
    }
  }

  lemma DistinctMember<T>(values: seq<T>, x: T)
    ensures x in Distinct(values) <==> x in values
  {
    assert x in Distinct(values) <==> x in (set y | y in Distinct(values));
  }

  /** The first appearance of every value keeps its relative order. */
  lemma {:induction false} DistinctKeepsFirst<T>(values: seq<T>)
    ensures values != [] ==> Distinct(values)[0] == values[0]
    decreases |values|
  {
    if |values| > 1 {
      var front := values[..|values| - 1];
      DistinctKeepsFirst(front);
    }
  }

  /** A list without repeats has as many elements as values. */
  lemma {:induction false} NoDuplicatesCardinality<T>(s: seq<T>)
    requires NoDuplicates(s)
    ensures |set x | x in s| == |s|
    decreases |s|
  {
    if s != [] {
      var front := s[..|s| - 1];
      var last := s[|s| - 1];
      NoDuplicatesCardinality(front);
      assert s == front + [last];
      assert last !in front;
      assert (set x | x in s) == (set x | x in front) + {last};
    }
  }

  /** `uniqueCustomers.length`. */
  function UniqueCustomers(list: seq<Listed>): nat {
    |Distinct(Phones(list))|
  }

  /** The unique-customer figure is the number of distinct `customer.phone`
      values (a missing phone being one value of its own), and never more
      than the number of invoices. */
  lemma UniqueCustomersCount(list: seq<Listed>)
    ensures UniqueCustomers(list) == |set i | 0 <= i < |list| :: PhoneOf(list[i])|
    ensures UniqueCustomers(list) <= |list|
  {
    var ps := Phones(list);
    NoDuplicatesCardinality(Distinct(ps));
    assert (set x | x in ps) == (set i | 0 <= i < |list| :: PhoneOf(list[i])) by {
      forall x | x in ps
        ensures x in (set i | 0 <= i < |list| :: PhoneOf(list[i]))
      {
        var i :| 0 <= i < |ps| && ps[i] == x;
      }
    }
  }

  /** `invoices.slice(0, 5)`. */
  function Recent(list: seq<Listed>): (r: seq<Listed>)
    ensures |r| == if |list| < 5 then |list| else 5
    ensures r == list[..|r|]
  {
    if |list| < 5 then list else list[..5]
  }
}
