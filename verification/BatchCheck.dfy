/** Batch results: the summary of an item's claims, the aggregate over items, and the exit codes. */
module BatchCheck {
  import opened Common
  import opened GoStrings

  datatype Claim = Claim(status: string, reasonCode: string, freshness: string)

  /** The closed set of categories that the code writes. */
  datatype Category = Integrity | InputError | Blocked | NotYetReviewed | Stale | UnknownClaim | Pass

  /** The rank of a category and its exit code. */
  function Rank(c: Category): nat {
    match c
    case Integrity => 6
    case InputError => 5
    case Blocked => 4
    case NotYetReviewed => 3
    case Stale => 2
    case UnknownClaim => 1
    case Pass => 0
  }

  function Exit(c: Category): nat {
    match c
    case Integrity => 3
    case InputError => 2
    case Blocked => 10
    case NotYetReviewed => 11
    case Stale => 11
    case UnknownClaim => 11
    case Pass => 0
  }

  function CategoryOf(claim: Claim): Category {
    if claim.status == "BLOCKED" then Blocked
    else if claim.freshness == "stale" || claim.reasonCode == "RULE_EVIDENCE_STALE" then Stale
    else if claim.freshness == "clock_before_review" || claim.reasonCode == "RULE_EVIDENCE_CLOCK_BEFORE_REVIEW" then NotYetReviewed
    else if claim.status != "PASS" then UnknownClaim
    else Pass
  }

  function ReasonFor(c: Category): string {
    match c
    case Blocked => "SCOPED_CLAIM_BLOCKED"
    case Stale => "RULE_EVIDENCE_STALE"
    case NotYetReviewed => "RULE_EVIDENCE_CLOCK_BEFORE_REVIEW"
    case UnknownClaim => "SCOPED_CLAIM_UNKNOWN"
    case _ => "SCOPED_CLAIMS_PASS"
  }

  // ---------- what a category means, on the fields of a claim

  predicate IsStale(claim: Claim) {
    claim.freshness == "stale" || claim.reasonCode == "RULE_EVIDENCE_STALE"
  }

  predicate IsEarly(claim: Claim) {
    claim.freshness == "clock_before_review" || claim.reasonCode == "RULE_EVIDENCE_CLOCK_BEFORE_REVIEW"
  }

  /** A pass on fresh evidence that had been reviewed. */
  predicate IsClear(claim: Claim) {
    claim.status == "PASS" && !IsStale(claim) && !IsEarly(claim)
  }

  lemma CategoryIff(claim: Claim)
    ensures CategoryOf(claim) == Blocked <==> claim.status == "BLOCKED"
    ensures CategoryOf(claim) == Stale <==> claim.status != "BLOCKED" && IsStale(claim)
    ensures CategoryOf(claim) == NotYetReviewed <==> claim.status != "BLOCKED" && !IsStale(claim) && IsEarly(claim)
    ensures CategoryOf(claim) == Pass <==> IsClear(claim)
    ensures CategoryOf(claim) != Integrity && CategoryOf(claim) != InputError
  {
    assert "BLOCKED" != "PASS";
  }

  // ---------- summaries

  datatype Summary = Summary(outcome: string, category: Category, reasonCode: string, categories: seq<Category>)

  const NO_CLAIMS: Summary := Summary("UNKNOWN", UnknownClaim, "EVALUATION_UNKNOWN", [UnknownClaim])

  // ---------- what a summary is, without an order of claims

  ghost predicate Occurs(claims: seq<Claim>, c: Category) {
    exists i :: 0 <= i < |claims| && CategoryOf(claims[i]) == c
  }

  /** A reason code that a claim of that category carries. */
  ghost predicate Carries(claims: seq<Claim>, c: Category, reason: string) {
    reason != "" && exists i :: 0 <= i < |claims| && CategoryOf(claims[i]) == c && claims[i].reasonCode == reason
  }

  /** The least such reason code, or none at all. */
  ghost predicate LeastReason(claims: seq<Claim>, c: Category, least: string) {
    if least == "" then forall reason :: !Carries(claims, c, reason)
    else Carries(claims, c, least) && forall reason :: Carries(claims, c, reason) ==> reason == least || Less(least, reason)
  }

  ghost predicate Descending(cs: seq<Category>) {
    forall i, j :: 0 <= i < j < |cs| ==> Rank(cs[i]) > Rank(cs[j])
  }

  /** The summary of a nonempty collection of claims, by what occurs in it. */
  ghost predicate Summarizes(claims: seq<Claim>, s: Summary) {
    && s.categories != [] && Descending(s.categories)
    && (forall c :: c in s.categories <==> Occurs(claims, c))
    && s.category == s.categories[0]
    && (exists least :: LeastReason(claims, s.category, least)
                        && s.reasonCode == (if s.category == Pass then "SCOPED_CLAIMS_PASS"
                                            else if least != "" then least else ReasonFor(s.category)))
    && s.outcome == (if s.category == Pass then "PASS" else if s.category == Blocked then "BLOCKED" else "UNKNOWN")
  }

  // ---------- the code

  /** `sort.SliceStable` by falling rank, one category at a time. */
  method Insert(sorted: seq<Category>, c: Category) returns (r: seq<Category>)
    requires Descending(sorted) && c !in sorted
    ensures Descending(r) && forall d :: d in r <==> d in sorted || d == c
  {
    var i := 0;
    while i < |sorted| && Rank(sorted[i]) > Rank(c)
      invariant i <= |sorted|
      invariant forall j :: 0 <= j < i ==> Rank(sorted[j]) > Rank(c)
    {
      i := i + 1;
    }
    RanksDiffer();
    assert forall j :: i <= j < |sorted| ==> Rank(sorted[j]) < Rank(c);
    InsertAt(sorted, i, c);
    r := sorted[..i] + [c] + sorted[i..];
  }

  lemma InsertAt(sorted: seq<Category>, i: nat, c: Category)
    requires i <= |sorted| && Descending(sorted)
    requires forall j :: 0 <= j < i ==> Rank(sorted[j]) > Rank(c)
    requires forall j :: i <= j < |sorted| ==> Rank(sorted[j]) < Rank(c)
    ensures var r := sorted[..i] + [c] + sorted[i..];
            Descending(r) && forall d :: d in r <==> d in sorted || d == c
  {
    hide Rank;
    assert sorted == sorted[..i] + sorted[i..];
  }

  lemma RanksDiffer()
    ensures forall c, d :: Rank(c) == Rank(d) ==> c == d
  {
  }

  method Categories(claims: seq<Claim>) returns (sorted: seq<Category>)
    ensures Descending(sorted)
    ensures forall c :: c in sorted <==> Occurs(claims, c)
  {
    sorted := [];
    for i := 0 to |claims|
      invariant Descending(sorted)
      invariant forall c :: c in sorted <==> Occurs(claims[..i], c)
    {
      var c := CategoryOf(claims[i]);
      assert claims[..i + 1] == claims[..i] + [claims[i]];
      OccursLast(claims[..i], claims[i]);
      if c !in sorted {
        sorted := Insert(sorted, c);
      }
    }
    assert claims[..|claims|] == claims;
  }

  lemma OccursLast(claims: seq<Claim>, claim: Claim)
    ensures forall c :: Occurs(claims + [claim], c) <==> Occurs(claims, c) || c == CategoryOf(claim)
  {
    var all := claims + [claim];
    forall c ensures Occurs(all, c) <==> Occurs(claims, c) || c == CategoryOf(claim) {
      assert all[|claims|] == claim;
      if Occurs(claims, c) {
        var i :| 0 <= i < |claims| && CategoryOf(claims[i]) == c;
        assert all[i] == claims[i];
      }
      if Occurs(all, c) && c != CategoryOf(claim) {
        var i :| 0 <= i < |all| && CategoryOf(all[i]) == c;
        assert claims[i] == all[i];
      }
    }
  }

  method LeastReasonOf(claims: seq<Claim>, c: Category) returns (least: string)
    ensures LeastReason(claims, c, least)
  {
    least := "";
    for i := 0 to |claims|
      invariant LeastReason(claims[..i], c, least)
    {
      var claim := claims[i];
      assert claims[..i + 1] == claims[..i] + [claim];
      CarriesLast(claims[..i], claim, c);
      if CategoryOf(claim) == c && claim.reasonCode != "" && (least == "" || Less(claim.reasonCode, least)) {
        LessKeeps(claims[..i], claim, c, least);
        least := claim.reasonCode;
      } else if least != "" {
        LessTotal(claim.reasonCode, least);
      }
    }
    assert claims[..|claims|] == claims;
  }

  lemma CarriesLast(claims: seq<Claim>, claim: Claim, c: Category)
    ensures forall reason :: Carries(claims + [claim], c, reason) <==>
              Carries(claims, c, reason) || (reason != "" && CategoryOf(claim) == c && claim.reasonCode == reason)
  {
    var all := claims + [claim];
    forall reason ensures Carries(all, c, reason) <==>
        Carries(claims, c, reason) || (reason != "" && CategoryOf(claim) == c && claim.reasonCode == reason)
    {
      assert all[|claims|] == claim;
      if Carries(claims, c, reason) {
        var i :| 0 <= i < |claims| && CategoryOf(claims[i]) == c && claims[i].reasonCode == reason;
        assert all[i] == claims[i];
      }
      if Carries(all, c, reason) {
        var i :| 0 <= i < |all| && CategoryOf(all[i]) == c && all[i].reasonCode == reason;
        if i < |claims| {
          assert claims[i] == all[i];
        }
      }
    }
  }

  lemma LessKeeps(claims: seq<Claim>, claim: Claim, c: Category, least: string)
    requires LeastReason(claims, c, least) && (least == "" || Less(claim.reasonCode, least))
    ensures forall reason :: Carries(claims, c, reason) ==> Less(claim.reasonCode, reason)
  {
    forall reason | Carries(claims, c, reason) ensures Less(claim.reasonCode, reason) {
      if reason != least {
        LessTransitive(claim.reasonCode, least, reason);
      }
    }
  }

  /** `fromClaims` */
  method FromClaims(claims: seq<Claim>) returns (s: Summary)
    ensures claims == [] ==> s == NO_CLAIMS
    ensures claims != [] ==> Summarizes(claims, s)
  {
    if |claims| == 0 {
      return NO_CLAIMS;
    }
    var categories := Categories(claims);
    assert Occurs(claims, CategoryOf(claims[0]));
    var category := categories[0];
    var reason := ReasonFor(category);
    var source := LeastReasonOf(claims, category);
    if source != "" {
      reason := source;
    }
    var outcome := "UNKNOWN";
    if category == Pass {
      outcome, reason := "PASS", "SCOPED_CLAIMS_PASS";
    } else if category == Blocked {
      outcome := "BLOCKED";
    }
    s := Summary(outcome, category, reason, categories);
  }

  // ---------- order independence

  lemma SameMembers<T>(a: seq<T>, b: seq<T>)
    requires multiset(a) == multiset(b)
    ensures forall x :: x in a <==> x in b
  {
    forall x ensures x in a <==> x in b {
      assert x in a <==> x in multiset(a);
      assert x in b <==> x in multiset(b);
    }
  }

  lemma OccursSame(a: seq<Claim>, b: seq<Claim>)
    requires forall x :: x in a <==> x in b
    ensures forall c :: Occurs(a, c) <==> Occurs(b, c)
    ensures forall c, reason :: Carries(a, c, reason) <==> Carries(b, c, reason)
  {
    OccursOneWay(a, b);
    OccursOneWay(b, a);
  }

  lemma OccursOneWay(a: seq<Claim>, b: seq<Claim>)
    requires forall x :: x in a ==> x in b
    ensures forall c :: Occurs(a, c) ==> Occurs(b, c)
    ensures forall c, reason :: Carries(a, c, reason) ==> Carries(b, c, reason)
  {
    forall c | Occurs(a, c) ensures Occurs(b, c) {
      var i :| 0 <= i < |a| && CategoryOf(a[i]) == c;
      assert a[i] in a;
      var j :| 0 <= j < |b| && b[j] == a[i];
    }
    forall c, reason | Carries(a, c, reason) ensures Carries(b, c, reason) {
      var i :| 0 <= i < |a| && CategoryOf(a[i]) == c && a[i].reasonCode == reason;
      assert a[i] in a;
      var j :| 0 <= j < |b| && b[j] == a[i];
    }
  }

  lemma {:induction false} DescendingUnique(a: seq<Category>, b: seq<Category>)
    requires Descending(a) && Descending(b) && forall c :: c in a <==> c in b
    ensures a == b
  {
    RanksDiffer();
    assert b != [] ==> b[0] in b;
    if a != [] {
      assert a[0] in a && a[0] in b;
      assert b[0] in b && b[0] in a;
      assert a[0] == b[0];
      forall c ensures c in a[1..] <==> c in b[1..] {
        TailMember(a, c);
        TailMember(b, c);
      }
      DescendingUnique(a[1..], b[1..]);
      assert a == [a[0]] + a[1..] && b == [b[0]] + b[1..];
    }
  }

  lemma TailMember(a: seq<Category>, c: Category)
    requires a != [] && Descending(a)
    ensures c in a[1..] <==> c in a && c != a[0]
  {
    assert a == [a[0]] + a[1..];
    if c in a[1..] {
      var i :| 0 <= i < |a[1..]| && a[1..][i] == c;
      assert Rank(a[0]) > Rank(a[i + 1]);
    }
  }

  lemma LeastUnique(claims: seq<Claim>, c: Category, a: string, b: string)
    requires LeastReason(claims, c, a) && LeastReason(claims, c, b)
    ensures a == b
  {
    LessTotal(a, b);
  }

  /** Any two summaries of the same claims in any order are the same. */
  lemma SummaryUnique(a: seq<Claim>, b: seq<Claim>, s: Summary, t: Summary)
    requires multiset(a) == multiset(b) && Summarizes(a, s) && Summarizes(b, t)
    ensures s == t
  {
    SameMembers(a, b);
    OccursSame(a, b);
    DescendingUnique(s.categories, t.categories);
    var least :| LeastReason(a, s.category, least)
                 && s.reasonCode == (if s.category == Pass then "SCOPED_CLAIMS_PASS"
                                     else if least != "" then least else ReasonFor(s.category));
    var other :| LeastReason(b, t.category, other)
                 && t.reasonCode == (if t.category == Pass then "SCOPED_CLAIMS_PASS"
                                     else if other != "" then other else ReasonFor(t.category));
    assert LeastReason(a, s.category, other);
    LeastUnique(a, s.category, least, other);
  }

  // ---------- the aggregate

  /** `aggregate`: the category of the highest rank. */
  method Aggregate(items: seq<Category>) returns (best: Category, exit: nat)
    ensures IsWorst(items, best) && exit == Exit(best)
  {
    best, exit := Pass, 0;
    var bestRank := 0;
    for i := 0 to |items|
      invariant bestRank == Rank(best) && exit == Exit(best)
      invariant best == Pass || best in items[..i]
      invariant forall j :: 0 <= j < i ==> Rank(items[j]) <= Rank(best)
    {
      if Rank(items[i]) > bestRank {
        best, exit, bestRank := items[i], Exit(items[i]), Rank(items[i]);
      }
    }
  }

  ghost predicate IsWorst(items: seq<Category>, best: Category) {
    (best == Pass || best in items) && forall i :: 0 <= i < |items| ==> Rank(items[i]) <= Rank(best)
  }

  /** The aggregate does not depend on the order of the items. */
  lemma WorstUnique(a: seq<Category>, b: seq<Category>, x: Category, y: Category)
    requires multiset(a) == multiset(b) && IsWorst(a, x) && IsWorst(b, y)
    ensures x == y
  {
    SameMembers(a, b);
    RanksDiffer();
    assert x in a ==> Rank(x) <= Rank(y);
    assert y in b ==> Rank(y) <= Rank(x);
  }

  /** What an item contributes: an evaluation error, or the claims it was judged on. */
  datatype Item = Failed(integrity: bool) | Judged(claims: seq<Claim>)

  ghost predicate CategoryOfItem(item: Item, c: Category) {
    match item
    case Failed(integrity) => c == if integrity then Integrity else InputError
    case Judged(claims) =>
      if claims == [] then c == NO_CLAIMS.category else exists s :: Summarizes(claims, s) && s.category == c
  }

  ghost predicate SomeBlocked(claims: seq<Claim>) {
    exists i :: 0 <= i < |claims| && claims[i].status == "BLOCKED"
  }

  ghost predicate SomeEarly(claims: seq<Claim>) {
    exists i :: 0 <= i < |claims| && claims[i].status != "BLOCKED" && !IsStale(claims[i]) && IsEarly(claims[i])
  }

  ghost predicate SomeStale(claims: seq<Claim>) {
    exists i :: 0 <= i < |claims| && claims[i].status != "BLOCKED" && IsStale(claims[i])
  }

  ghost predicate AllPass(claims: seq<Claim>) {
    forall i :: 0 <= i < |claims| ==> claims[i].status == "PASS"
  }

  /** The category of claims on their fields: blocked, then not yet reviewed, then stale, then anything but a pass. */
  ghost function ClaimsCategory(claims: seq<Claim>): Category {
    if SomeBlocked(claims) then Blocked
    else if SomeEarly(claims) then NotYetReviewed
    else if SomeStale(claims) then Stale
    else if claims == [] || !AllPass(claims) then UnknownClaim
    else Pass
  }

  ghost function ItemCategory(item: Item): Category {
    match item
    case Failed(integrity) => if integrity then Integrity else InputError
    case Judged(claims) => ClaimsCategory(claims)
  }

  /** Every claim passes on fresh and reviewed evidence, and there is one. */
  ghost predicate AllClear(item: Item) {
    item.Judged? && item.claims != [] && forall i :: 0 <= i < |item.claims| ==> IsClear(item.claims[i])
  }

  /** The category of an item with claims occurs among them and outranks every other. */
  lemma WorstClaim(claims: seq<Claim>, c: Category)
    requires claims != [] && CategoryOfItem(Judged(claims), c)
    ensures Occurs(claims, c)
    ensures forall i :: 0 <= i < |claims| ==> Rank(CategoryOf(claims[i])) <= Rank(c)
  {
    var s :| Summarizes(claims, s) && s.category == c;
    assert c in s.categories;
    forall i | 0 <= i < |claims| ensures Rank(CategoryOf(claims[i])) <= Rank(c) {
      assert Occurs(claims, CategoryOf(claims[i]));
    }
  }

  lemma CategoriesOf(claims: seq<Claim>)
    ensures Occurs(claims, Blocked) <==> SomeBlocked(claims)
    ensures Occurs(claims, NotYetReviewed) <==> SomeEarly(claims)
    ensures Occurs(claims, Stale) <==> SomeStale(claims)
    ensures !Occurs(claims, Integrity) && !Occurs(claims, InputError)
    ensures !SomeBlocked(claims) && !SomeEarly(claims) && !SomeStale(claims) ==> (Occurs(claims, UnknownClaim) <==> !AllPass(claims))
  {
    hide CategoryOf, IsStale, IsEarly;
    forall i | 0 <= i < |claims|
      ensures CategoryOf(claims[i]) == Blocked <==> claims[i].status == "BLOCKED"
      ensures CategoryOf(claims[i]) == Stale <==> claims[i].status != "BLOCKED" && IsStale(claims[i])
      ensures CategoryOf(claims[i]) == NotYetReviewed <==>
              claims[i].status != "BLOCKED" && !IsStale(claims[i]) && IsEarly(claims[i])
      ensures CategoryOf(claims[i]) == Pass <==> IsClear(claims[i])
      ensures CategoryOf(claims[i]) != Integrity && CategoryOf(claims[i]) != InputError
    {
      CategoryIff(claims[i]);
    }
  }

  /** The category of an item is the one that the fields of its claims give. */
  lemma CategoryOfItemIs(item: Item, c: Category)
    requires CategoryOfItem(item, c)
    ensures c == ItemCategory(item)
  {
    hide CategoryOf, Summarizes, SomeBlocked, SomeEarly, SomeStale, AllPass;
    if item.Judged? {
      var claims := item.claims;
      CategoriesOf(claims);
      if claims == [] {
        NothingOccurs();
      } else {
        WorstClaim(claims, c);
        assert forall d :: Occurs(claims, d) ==> Rank(d) <= Rank(c);
      }
    }
  }

  lemma NothingOccurs()
    ensures !SomeBlocked([]) && !SomeEarly([]) && !SomeStale([])
  {
  }

  lemma ClearIff(claims: seq<Claim>)
    requires claims != []
    ensures ClaimsCategory(claims) == Pass <==> forall i :: 0 <= i < |claims| ==> IsClear(claims[i])
  {
    assert "BLOCKED" != "PASS";
    if ClaimsCategory(claims) == Pass {
      forall i | 0 <= i < |claims| ensures IsClear(claims[i]) {
        assert claims[i].status == "PASS";
      }
    }
  }

  lemma PassIffAllClear(item: Item, c: Category)
    requires CategoryOfItem(item, c)
    ensures c == Pass <==> AllClear(item)
  {
    hide CategoryOfItem, ClaimsCategory, IsClear;
    CategoryOfItemIs(item, c);
    if item.Judged? && item.claims != [] {
      ClearIff(item.claims);
    } else if item.Judged? {
      NoClaims();
    }
  }

  lemma NoClaims()
    ensures ClaimsCategory([]) == UnknownClaim
  {
  }

  /** The batch exits with 0 exactly when every item has claims and all of them pass on fresh evidence. */
  lemma ExitZeroIff(items: seq<Item>, categories: seq<Category>, best: Category)
    requires |categories| == |items| && forall i :: 0 <= i < |items| ==> CategoryOfItem(items[i], categories[i])
    requires IsWorst(categories, best)
    ensures Exit(best) == 0 <==> forall i :: 0 <= i < |items| ==> AllClear(items[i])
  {
    hide CategoryOfItem, AllClear;
    forall i | 0 <= i < |items| ensures categories[i] == Pass <==> AllClear(items[i]) {
      PassIffAllClear(items[i], categories[i]);
    }
    if forall i :: 0 <= i < |items| ==> AllClear(items[i]) {
      assert forall i :: 0 <= i < |categories| ==> categories[i] == Pass;
    }
  }

  /** Some claim of some item is blocked. */
  ghost predicate AnyBlocked(items: seq<Item>) {
    exists i :: 0 <= i < |items| && items[i].Judged? && SomeBlocked(items[i].claims)
  }

  /** Every exit of a batch: integrity errors first, then input errors, then blocked claims, then anything unclear. */
  lemma BatchExitIs(items: seq<Item>, categories: seq<Category>, best: Category)
    requires |categories| == |items| && forall i :: 0 <= i < |items| ==> CategoryOfItem(items[i], categories[i])
    requires IsWorst(categories, best)
    ensures Exit(best)
         == if Failed(true) in items then 3
            else if Failed(false) in items then 2
            else if AnyBlocked(items) then 10
            else if forall i :: 0 <= i < |items| ==> AllClear(items[i]) then 0
            else 11
  {
    hide CategoryOfItem, AllClear, SomeBlocked, SomeEarly, SomeStale, AllPass;
    forall i | 0 <= i < |items| ensures categories[i] == ItemCategory(items[i]) {
      CategoryOfItemIs(items[i], categories[i]);
    }
    ExitZeroIff(items, categories, best);
    if Failed(true) in items {
      var i :| 0 <= i < |items| && items[i] == Failed(true);
      assert categories[i] == Integrity;
    } else if Failed(false) in items {
      var i :| 0 <= i < |items| && items[i] == Failed(false);
      assert categories[i] == InputError;
    } else if AnyBlocked(items) {
      var i :| 0 <= i < |items| && items[i].Judged? && SomeBlocked(items[i].claims);
      assert categories[i] == Blocked;
    }
  }

  /** What a summary says, on the fields of the claims. */
  lemma SummaryIs(claims: seq<Claim>, s: Summary)
    requires claims != [] && Summarizes(claims, s)
    ensures s.category == ClaimsCategory(claims)
    ensures s.outcome == "PASS" <==> forall i :: 0 <= i < |claims| ==> IsClear(claims[i])
    ensures s.outcome == "BLOCKED" <==> SomeBlocked(claims)
    ensures s.reasonCode == "SCOPED_CLAIMS_PASS" || s.category != Pass
    ensures (forall i :: 0 <= i < |claims| ==> claims[i].reasonCode == "") ==>
              s.reasonCode == match s.category
                              case Blocked => "SCOPED_CLAIM_BLOCKED"
                              case NotYetReviewed => "RULE_EVIDENCE_CLOCK_BEFORE_REVIEW"
                              case Stale => "RULE_EVIDENCE_STALE"
                              case UnknownClaim => "SCOPED_CLAIM_UNKNOWN"
                              case _ => "SCOPED_CLAIMS_PASS"
  {
    hide CategoryOf, IsClear, SomeEarly, SomeStale, AllPass;
    assert CategoryOfItem(Judged(claims), s.category);
    CategoryOfItemIs(Judged(claims), s.category);
    ClearIff(claims);
    if forall i :: 0 <= i < |claims| ==> claims[i].reasonCode == "" {
      var least :| LeastReason(claims, s.category, least)
                   && s.reasonCode == (if s.category == Pass then "SCOPED_CLAIMS_PASS"
                                       else if least != "" then least else ReasonFor(s.category));
      assert least == "";
    }
  }

  // ---------- exit modes

  /** The category of a stored name; every other name ranks and exits like PASS. */
  function Named(name: string): Category {
    match name
    case "INTEGRITY_ERROR" => Integrity
    case "INPUT_ERROR" => InputError
    case "BLOCKED" => Blocked
    case "NOT_YET_REVIEWED" => NotYetReviewed
    case "STALE_EVIDENCE" => Stale
    case "UNKNOWN_CLAIM" => UnknownClaim
    case _ => Pass
  }

  function Name(c: Category): string {
    match c
    case Integrity => "INTEGRITY_ERROR"
    case InputError => "INPUT_ERROR"
    case Blocked => "BLOCKED"
    case NotYetReviewed => "NOT_YET_REVIEWED"
    case Stale => "STALE_EVIDENCE"
    case UnknownClaim => "UNKNOWN_CLAIM"
    case Pass => "PASS"
  }

  /** Names are read back as they were written, and a stored name exits 0 exactly when it is not the name of a failing category. */
  lemma NamedIff(name: string)
    ensures forall c :: Named(Name(c)) == c
    ensures Exit(Named(name)) == 0 <==> forall c :: c != Pass ==> name != Name(c)
  {
    assert forall c :: Exit(c) == 0 <==> c == Pass;
    assert name != Name(Named(name)) ==> Named(name) == Pass;
  }

  /** The categories as they were stored; the aggregate is empty in reports of older versions. */
  datatype Report = Report(aggregateCategory: string, items: seq<string>) {
    function Items(): (r: seq<Category>)
      ensures |r| == |items| && forall i :: 0 <= i < |r| ==> r[i] == Named(items[i])
    {
      seq(|items|, i requires 0 <= i < |items| => Named(items[i]))
    }

    /** The category that decides the exit, given the aggregate of the items. */
    function Deciding(best: Category): Category {
      if aggregateCategory == "" then best else Named(aggregateCategory)
    }
  }

  /** `ExitForMode`, `None` for its error. */
  method ExitForMode(report: Report, mode: string) returns (exit: Option<nat>)
    ensures exit == None <==> mode != "legacy" && mode != "detailed"
    ensures exit.Some? ==>
              exists best :: IsWorst(report.Items(), best)
                             && exit.value == (if mode == "detailed" && report.aggregateCategory == Name(Stale) then 12
                                               else if mode == "detailed" && report.aggregateCategory == Name(NotYetReviewed) then 13
                                               else Exit(report.Deciding(best)))
  {
    if mode != "legacy" && mode != "detailed" {
      return None;
    }
    var best, legacy := Aggregate(report.Items());
    if report.aggregateCategory != "" {
      legacy := Exit(Named(report.aggregateCategory));
    }
    if mode == "legacy" {
      return Some(legacy);
    }
    match report.aggregateCategory
    case "STALE_EVIDENCE" => return Some(12);
    case "NOT_YET_REVIEWED" => return Some(13);
    case _ => return Some(legacy);
  }

  // ---------- against the exit of a single check

  /** `ClaimExit` of the single check; `sealed` says that the report marshals. */
  method ClaimExit(sealed: bool, claims: seq<Claim>) returns (exit: nat)
    ensures exit == if sealed then SingleExit(claims) else 3
  {
    if !sealed {
      return 3;
    }
    if |claims| == 0 {
      return 11;
    }
    var unknown := false;
    for i := 0 to |claims|
      invariant forall j :: 0 <= j < i ==> claims[j].status != "BLOCKED"
      invariant unknown <==> exists j :: 0 <= j < i && claims[j].status != "PASS"
    {
      if claims[i].status == "BLOCKED" {
        return 10;
      }
      if claims[i].status != "PASS" {
        unknown := true;
      }
    }
    return if unknown then 11 else 0;
  }

  ghost function SingleExit(claims: seq<Claim>): nat {
    if claims == [] then 11 else if SomeBlocked(claims) then 10 else if AllPass(claims) then 0 else 11
  }

  /**
    A batch of one item exits like the single check, except exactly when every
    claim passes and some of them on stale or not yet reviewed evidence.
    */
  lemma AgreesWithSingleIff(claims: seq<Claim>, c: Category)
    requires CategoryOfItem(Judged(claims), c)
    ensures Exit(c) == SingleExit(claims) <==>
            !(claims != [] && AllPass(claims) && exists i :: 0 <= i < |claims| && (IsStale(claims[i]) || IsEarly(claims[i])))
  {
    hide CategoryOfItem, SomeEarly, SomeStale, IsStale, IsEarly;
    CategoryOfItemIs(Judged(claims), c);
    if claims != [] {
      ClearIff(claims);
      assert "BLOCKED" != "PASS";
    } else {
      NoClaims();
    }
  }
}
