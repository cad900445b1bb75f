/**
 * GetProductsByFilter: each present criterion narrows the query by one
 * exact-equality `Where`, so the result is the rows, in store order, that
 * meet every present criterion.
 */
module Query {
  import opened Wrappers
  import opened Text
  import opened Models
  import opened Dtos
  import opened Catalog

  datatype Field = ItemId | Beden | Barkod | Renk

  function FieldOf(p: Product, f: Field): string {
    match f
    case ItemId => p.itemId
    case Beden => p.beden
    case Barkod => p.barkod
    case Renk => p.renk
  }

  /** The predicate of one `query.Where(...)`: exact equality on the key or on one string property. */
  datatype Criterion = KeyIs(id: int) | FieldIs(field: Field, value: string)

  predicate Holds(c: Criterion, p: Product) {
    match c
    case KeyIs(id) => p.id == id
    case FieldIs(f, v) => FieldOf(p, f) == v
  }

  /** `filter.id.HasValue && filter.id.Value > 0`. */
  predicate IdPresent(id: Option<int>) {
    id.Some? && id.value > 0
  }

  /** `s != null && s.Trim() != ""`. */
  predicate TextPresent(s: Option<string>) {
    s.Some? && !IsBlank(s.value)
  }

  function IdCriteria(id: Option<int>): seq<Criterion> {
    if IdPresent(id) then [KeyIs(id.value)] else []
  }

  /** A present string criterion is compared against its trimmed value. */
  function TextCriteria(f: Field, s: Option<string>): seq<Criterion> {
    if TextPresent(s) then [FieldIs(f, Trim(s.value))] else []
  }

  /** The `Where` clauses the service adds, in its order: id, barkod, renk, itemId, beden. */
  function ActiveCriteria(filter: ProductQueryFilterDto): (cs: seq<Criterion>)
    ensures |cs| <= 5
    ensures cs == [] <==>
      && !IdPresent(filter.id)
      && !TextPresent(filter.barkod) && !TextPresent(filter.renk)
      && !TextPresent(filter.itemId) && !TextPresent(filter.beden)
  {
    IdCriteria(filter.id)
      + TextCriteria(Barkod, filter.barkod)
      + TextCriteria(Renk, filter.renk)
      + TextCriteria(ItemId, filter.itemId)
      + TextCriteria(Beden, filter.beden)
  }

  /** The rows for which `keep` holds, in their order. */
  function Filter(rows: seq<Product>, keep: Product -> bool): (r: seq<Product>)
    ensures |r| <= |rows|
    ensures forall p :: p in r <==> p in rows && keep(p)
  {
    if rows == [] then []
    else (if keep(rows[0]) then [rows[0]] else []) + Filter(rows[1..], keep)
  }

  /** `query = query.Where(c)` for each criterion in turn. */
  function Narrow(rows: seq<Product>, cs: seq<Criterion>): (r: seq<Product>)
    ensures |r| <= |rows|
    ensures forall p :: p in r ==> p in rows && SatisfiesAll(cs, p)
    decreases |cs|
  {
    if cs == [] then rows
    else
      SatisfiesAllCons(cs);
      Narrow(Filter(rows, p => Holds(cs[0], p)), cs[1..])
  }

  /**
   * GetProductsByFilter over the table `rows`, before conversion to DTOs:
   * the rows that match the filter, in store order.
   */
  function ProductsByFilter(rows: seq<Product>, filter: ProductQueryFilterDto): (r: seq<Product>)
    ensures r == Filter(rows, p => Matches(filter, p))
  {
    NarrowIsConjunction(rows, ActiveCriteria(filter));
    ActiveCriteriaFilter(rows, filter);
    Narrow(rows, ActiveCriteria(filter))
  }

  /** Reference meaning of a filter: the conjunction of its present criteria, field by field. */
  predicate Matches(filter: ProductQueryFilterDto, p: Product) {
    && IdMatches(filter.id, p.id)
    && TextMatches(filter.barkod, p.barkod)
    && TextMatches(filter.renk, p.renk)
    && TextMatches(filter.itemId, p.itemId)
    && TextMatches(filter.beden, p.beden)
  }

  /** An absent id criterion accepts every key; a present one only its own. */
  predicate IdMatches(id: Option<int>, key: int) {
    IdPresent(id) ==> key == id.value
  }

  /** An absent string criterion accepts every value; a present one only its trimmed text. */
  predicate TextMatches(s: Option<string>, value: string) {
    TextPresent(s) ==> value == Trim(s.value)
  }

  predicate SatisfiesAll(cs: seq<Criterion>, p: Product) {
    forall i :: 0 <= i < |cs| ==> Holds(cs[i], p)
  }

  /** `a` is `b` with some rows left out and the order kept. */
  predicate IsSubsequence(a: seq<Product>, b: seq<Product>)
    decreases |b|
  {
    if b == [] then a == []
    else (a != [] && a[0] == b[0] && IsSubsequence(a[1..], b[1..])) || IsSubsequence(a, b[1..])
  }

  lemma {:induction false} FilterAgree(rows: seq<Product>, a: Product -> bool, b: Product -> bool)
    requires forall p :: p in rows ==> a(p) == b(p)
    ensures Filter(rows, a) == Filter(rows, b)
    decreases |rows|
  {
    if rows != [] {
      FilterAgree(rows[1..], a, b);
    }
  }

  /** Two narrowing steps are one step by the conjunction. */
  lemma {:induction false} FilterFilter(rows: seq<Product>, a: Product -> bool, b: Product -> bool, both: Product -> bool)
    requires forall p :: both(p) == (a(p) && b(p))
    ensures Filter(Filter(rows, a), b) == Filter(rows, both)
    decreases |rows|
  {
    if rows != [] {
      FilterFilter(rows[1..], a, b, both);
      var head := if a(rows[0]) then [rows[0]] else [];
      assert Filter(rows, a) == head + Filter(rows[1..], a);
      FilterAppend(head, Filter(rows[1..], a), b);
    }
  }

  lemma {:induction false} FilterAppend(x: seq<Product>, y: seq<Product>, keep: Product -> bool)
    ensures Filter(x + y, keep) == Filter(x, keep) + Filter(y, keep)
    decreases |x|
  {
    if x == [] {
      assert x + y == y;
    } else {
      assert (x + y)[1..] == x[1..] + y;
      FilterAppend(x[1..], y, keep);
    }
  }

  /** The staged `Where` narrowing equals one filter by the conjunction of the criteria. */
  lemma {:induction false} NarrowIsConjunction(rows: seq<Product>, cs: seq<Criterion>)
    ensures Narrow(rows, cs) == Filter(rows, p => SatisfiesAll(cs, p))
    decreases |cs|
  {
    if cs == [] {
      FilterAgree(rows, p => true, p => SatisfiesAll(cs, p));
      FilterAll(rows);
    } else {
      var first := p => Holds(cs[0], p);
      NarrowIsConjunction(Filter(rows, first), cs[1..]);
      FilterFilter(rows, first, p => SatisfiesAll(cs[1..], p), p => SatisfiesAll(cs, p)) by {
          SatisfiesAllCons(cs);
      }
    }
  }

  lemma {:induction false} FilterAll(rows: seq<Product>)
    ensures Filter(rows, p => true) == rows
    decreases |rows|
  {
    if rows != [] {
      FilterAll(rows[1..]);
    }
  }

  /** The active criteria hold of a product exactly when it matches the filter. */
  lemma ActiveCriteriaMeaning(filter: ProductQueryFilterDto, p: Product)
    ensures SatisfiesAll(ActiveCriteria(filter), p) <==> Matches(filter, p)
  {
    var a := IdCriteria(filter.id);
    IdCriteriaMeaning(filter.id, p);
    TextCriteriaMeaning(Barkod, filter.barkod, p);
    TextCriteriaMeaning(Renk, filter.renk, p);
    TextCriteriaMeaning(ItemId, filter.itemId, p);
    TextCriteriaMeaning(Beden, filter.beden, p);
    var b := TextCriteria(Barkod, filter.barkod);
    var c := TextCriteria(Renk, filter.renk);
    var d := TextCriteria(ItemId, filter.itemId);
    var e := TextCriteria(Beden, filter.beden);
    SatisfiesAllAppend(a, b, p);
    SatisfiesAllAppend(a + b, c, p);
    SatisfiesAllAppend(a + b + c, d, p);
    SatisfiesAllAppend(a + b + c + d, e, p);
  }

  lemma IdCriteriaMeaning(id: Option<int>, p: Product)
    ensures SatisfiesAll(IdCriteria(id), p) <==> IdMatches(id, p.id)
  {
    if IdPresent(id) {
      assert IdCriteria(id)[0] == KeyIs(id.value);
    }
  }

  lemma TextCriteriaMeaning(f: Field, s: Option<string>, p: Product)
    ensures SatisfiesAll(TextCriteria(f, s), p) <==> TextMatches(s, FieldOf(p, f))
  {
    if TextPresent(s) {
      assert TextCriteria(f, s)[0] == FieldIs(f, Trim(s.value));
    }
  }

  lemma SatisfiesAllAppend(x: seq<Criterion>, y: seq<Criterion>, p: Product)
    ensures SatisfiesAll(x + y, p) <==> SatisfiesAll(x, p) && SatisfiesAll(y, p)
  {
    if SatisfiesAll(x, p) && SatisfiesAll(y, p) {
      forall i | |x| <= i < |x + y| ensures Holds((x + y)[i], p) { assert (x + y)[i] == y[i - |x|]; }
    }
    if SatisfiesAll(x + y, p) {
      forall i | 0 <= i < |x| ensures Holds(x[i], p) { assert (x + y)[i] == x[i]; }
      forall i | 0 <= i < |y| ensures Holds(y[i], p) { assert (x + y)[|x| + i] == y[i]; }
    }
  }

  /** Filtering by the criteria the service adds is filtering by the reference conjunction. */
  lemma ActiveCriteriaFilter(rows: seq<Product>, filter: ProductQueryFilterDto)
    ensures Filter(rows, p => SatisfiesAll(ActiveCriteria(filter), p)) == Filter(rows, p => Matches(filter, p))
  {
    forall p ensures SatisfiesAll(ActiveCriteria(filter), p) == Matches(filter, p) {
      ActiveCriteriaMeaning(filter, p);
    }
    FilterAgree(rows, p => SatisfiesAll(ActiveCriteria(filter), p), p => Matches(filter, p));
  }

  /** A row meets a non-empty list of criteria exactly when it meets the first and the rest. */
  lemma SatisfiesAllCons(cs: seq<Criterion>)
    requires cs != []
    ensures forall p :: SatisfiesAll(cs, p) <==> Holds(cs[0], p) && SatisfiesAll(cs[1..], p)
  {
    forall p ensures SatisfiesAll(cs, p) <==> Holds(cs[0], p) && SatisfiesAll(cs[1..], p) {
      SatisfiesAllAppend([cs[0]], cs[1..], p);
      assert [cs[0]] + cs[1..] == cs;
    }
  }

  /** A row is returned exactly when it is stored and matches every present criterion. */
  lemma FilterMembers(rows: seq<Product>, filter: ProductQueryFilterDto)
    ensures forall p :: p in ProductsByFilter(rows, filter) <==> p in rows && Matches(filter, p)
  {
  }

  lemma {:induction false} FilterIsSubsequence(rows: seq<Product>, keep: Product -> bool)
    ensures IsSubsequence(Filter(rows, keep), rows)
    decreases |rows|
  {
    if rows != [] {
      FilterIsSubsequence(rows[1..], keep);
      if keep(rows[0]) {
        assert Filter(rows, keep)[1..] == Filter(rows[1..], keep);
      } else {
        assert Filter(rows, keep) == Filter(rows[1..], keep);
      }
    }
  }

  /** The result is a subsequence of the table: store order, nothing invented. */
  lemma FilterKeepsStoreOrder(rows: seq<Product>, filter: ProductQueryFilterDto)
    ensures IsSubsequence(ProductsByFilter(rows, filter), rows)
  {
    FilterIsSubsequence(rows, p => Matches(filter, p));
  }

  /** With no present criterion (id absent or not positive, every string null or blank) the whole table is returned. */
  lemma NoCriteriaReturnsAll(rows: seq<Product>, filter: ProductQueryFilterDto)
    requires !IdPresent(filter.id)
    requires !TextPresent(filter.barkod) && !TextPresent(filter.renk)
    requires !TextPresent(filter.itemId) && !TextPresent(filter.beden)
    ensures ProductsByFilter(rows, filter) == rows
  {
    assert ActiveCriteria(filter) == [];
  }

  /** A present id criterion returns only rows with that key; with unique keys, at most one row. */
  lemma IdCriterionSelectsKey(rows: seq<Product>, filter: ProductQueryFilterDto)
    requires IdPresent(filter.id)
    ensures forall p :: p in ProductsByFilter(rows, filter) ==> p.id == filter.id.value
    ensures UniqueKeys(rows) ==> |ProductsByFilter(rows, filter)| <= 1
  {
    FilterMembers(rows, filter);
    var r := ProductsByFilter(rows, filter);
    if UniqueKeys(rows) && |r| > 1 {
      FilterKeepsStoreOrder(rows, filter);
      assert r[0] in r && r[1] in r;
      SubsequenceKeysRepeat(r, rows, filter.id.value);
    }
  }

  /** A subsequence of a table with unique keys cannot hold two rows with the same key. */
  lemma {:induction false} SubsequenceKeysRepeat(a: seq<Product>, b: seq<Product>, k: int)
    requires IsSubsequence(a, b) && UniqueKeys(b)
    requires |a| > 1 && a[0].id == k && a[1].id == k
    ensures false
    decreases |b|
  {
    if a[0] == b[0] && IsSubsequence(a[1..], b[1..]) {
      var rest := a[1..];
      assert rest[0].id == k;
      SubsequenceHasKey(rest, b[1..], k);
    } else {
      assert UniqueKeys(b[1..]);
      SubsequenceKeysRepeat(a, b[1..], k);
    }
  }

  lemma {:induction false} SubsequenceHasKey(a: seq<Product>, b: seq<Product>, k: int)
    requires IsSubsequence(a, b) && a != [] && a[0].id == k
    ensures HasKey(b, k)
    decreases |b|
  {
    if a[0] == b[0] && IsSubsequence(a[1..], b[1..]) {
    } else {
      SubsequenceHasKey(a, b[1..], k);
      var j :| 0 <= j < |b[1..]| && b[1..][j].id == k;
      assert b[j + 1].id == k;
    }
  }

  /** A criterion with no whitespace at either end is present and compared exactly as given. */
  lemma UntrimmedCriterionPresent(v: string)
    requires v != [] && !IsWhite(v[0]) && !IsWhite(v[|v| - 1])
    ensures TextPresent(Some(v)) && Trim(v) == v
  {
    TrimFixedPoint(v);
  }

  /** Two filters whose criteria agree after trimming. */
  predicate SameTrimmedCriteria(f: ProductQueryFilterDto, g: ProductQueryFilterDto) {
    && (IdPresent(f.id) <==> IdPresent(g.id))
    && (IdPresent(f.id) ==> f.id == g.id)
    && SameTrimmedText(f.barkod, g.barkod)
    && SameTrimmedText(f.renk, g.renk)
    && SameTrimmedText(f.itemId, g.itemId)
    && SameTrimmedText(f.beden, g.beden)
  }

  predicate SameTrimmedText(s: Option<string>, t: Option<string>) {
    (TextPresent(s) <==> TextPresent(t)) && (TextPresent(s) ==> Trim(s.value) == Trim(t.value))
  }

  /** Only the trimmed criteria matter: filters that agree after trimming return the same rows. */
  lemma TrimmedCriteriaDecide(rows: seq<Product>, f: ProductQueryFilterDto, g: ProductQueryFilterDto)
    requires SameTrimmedCriteria(f, g)
    ensures ProductsByFilter(rows, f) == ProductsByFilter(rows, g)
  {
    assert ActiveCriteria(f) == ActiveCriteria(g);
  }

  /** Whitespace around a present colour criterion is ignored. */
  lemma PaddedCriterionIgnored(rows: seq<Product>, f: ProductQueryFilterDto, w1: string, v: string, w2: string)
    requires AllWhite(w1) && AllWhite(w2)
    ensures ProductsByFilter(rows, f.(renk := Some(w1 + v + w2))) == ProductsByFilter(rows, f.(renk := Some(v)))
  {
    TrimIgnoresPadding(w1, v, w2);
    TrimmedCriteriaDecide(rows, f.(renk := Some(w1 + v + w2)), f.(renk := Some(v)));
  }

  /** A criterion and its trimmed form select the same rows. */
  lemma CriterionAlreadyTrimmed(rows: seq<Product>, f: ProductQueryFilterDto, s: string)
    ensures ProductsByFilter(rows, f.(beden := Some(s))) == ProductsByFilter(rows, f.(beden := Some(Trim(s))))
  {
    var g, h := f.(beden := Some(s)), f.(beden := Some(Trim(s)));
    TrimIdempotent(s);
    assert IsBlank(s) <==> IsBlank(Trim(s));
    assert SameTrimmedText(g.beden, h.beden);
    assert SameTrimmedCriteria(g, h);
    TrimmedCriteriaDecide(rows, g, h);
  }
}
