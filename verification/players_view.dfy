/** The player explorer's list: the shared filters, an optional signing
    filter, and a sort by the chosen key (G+A by default); plus the signing
    counts shown on the filter buttons. */
module PlayersView {
  import opened Wrappers
  import opened Players
  import opened SeqUtil
  import opened Sorting
  import opened SearchParams
  import opened FilterPlayers
  import opened Explorer

  datatype SigningFilter = Transfers | Loans

  /** The filter's name in the `signing` parameter. */
  function SigningName(s: SigningFilter): string {
    match s
    case Transfers => "transfer"
    case Loans => "loan"
  }

  /** `parseSigningFilter`: `"transfer"` and `"loan"` select their filter;
      anything else, an absent parameter included, is no filter. */
  function ParseSigningFilter(v: Option<string>): (r: Option<SigningFilter>)
    ensures r == Some(Transfers) <==> v == Some("transfer")
    ensures r == Some(Loans) <==> v == Some("loan")
  {
    if v == Some("transfer") then Some(Transfers)
    else if v == Some("loan") then Some(Loans)
    else None
  }

  /** Writing a filter's name into `signing` and parsing it back gives the filter. */
  lemma ParseSigningRoundTrip(s: SigningFilter)
    ensures ParseSigningFilter(Some(SigningName(s))) == Some(s)
  {
  }

  function NewSigningRule(): Player -> bool {
    (p: Player) => p.isNewSigning
  }

  function LoanRule(): Player -> bool {
    (p: Player) => p.isOnLoan
  }

  /** Player `p` passes the signing filter. */
  predicate PassesSigning(p: Player, s: Option<SigningFilter>) {
    match s
    case None => true
    case Some(Transfers) => p.isNewSigning
    case Some(Loans) => p.isOnLoan
  }

  /** The filtered list before sorting. */
  function Listed(players: seq<Player>, ps: Params, lower: string -> string): (r: seq<Player>)
    ensures multiset(r) <= multiset(players)
    ensures forall p :: p in r <==>
              p in players && PassesFilters(p, ParseFilters(ps), lower)
              && PassesSigning(p, ParseSigningFilter(Get(ps, "signing")))
  {
    var base := BaseList(players, ParseFilters(ps), lower);
    match ParseSigningFilter(Get(ps, "signing"))
    case None => base
    case Some(Transfers) => FilterSubsequence(NewSigningRule(), base); Filter(NewSigningRule(), base)
    case Some(Loans) => FilterSubsequence(LoanRule(), base); Filter(LoanRule(), base)
  }

  /** `sortedPlayers`: the listed players sorted by the `sort` key (G+A when
      unrecognised), descending unless `dir=asc`. With `signing=transfer` every
      player shown is a new signing, with `signing=loan` every one is on loan. */
  function SortedPlayers(players: seq<Player>, ps: Params, lower: string -> string): (r: seq<Player>)
    ensures multiset(r) == multiset(Listed(players, ps, lower))
    ensures SortedBy(KeyOf(ParseSortKey(Get(ps, "sort"), ByGa)), IsAsc(ps), r)
    ensures forall p :: p in r ==> p in players && PassesFilters(p, ParseFilters(ps), lower)
    ensures Get(ps, "signing") == Some("transfer") ==> forall p :: p in r ==> p.isNewSigning
    ensures Get(ps, "signing") == Some("loan") ==> forall p :: p in r ==> p.isOnLoan
  {
    var list := Listed(players, ps, lower);
    var r := SortList(list, ParseSortKey(Get(ps, "sort"), ByGa), IsAsc(ps));
    assert forall p :: p in r <==> p in multiset(r);
    assert forall p :: p in list <==> p in multiset(list);
    r
  }

  /** The numbers on the signing buttons. */
  datatype SigningCounts = SigningCounts(newSignings: nat, loans: nat)

  /** `signingCounts`: new signings and loans among the players that pass the
      league, club and top-five filters; the signing filter is not applied. */
  function SigningCountsOf(players: seq<Player>, ps: Params, lower: string -> string): (c: SigningCounts)
    ensures var base := BaseList(players, ParseFilters(ps), lower);
            && c.newSignings == |IndicesWhere(NewSigningRule(), base)|
            && c.loans == |IndicesWhere(LoanRule(), base)|
  {
    var base := BaseList(players, ParseFilters(ps), lower);
    CountIsIndexCount(NewSigningRule(), base);
    CountIsIndexCount(LoanRule(), base);
    SigningCounts(Count(NewSigningRule(), base), Count(LoanRule(), base))
  }

  /** Choosing a signing filter never changes the counts. */
  lemma CountsIgnoreSigningFilter(players: seq<Player>, ps: Params, v: string, lower: string -> string)
    ensures SigningCountsOf(players, Set(ps, "signing", v), lower) == SigningCountsOf(players, ps, lower)
  {
    FiltersIgnoreOtherNames(ps, "signing", v);
  }

  /** The count on a signing button is the length of the list that button shows. */
  lemma CountMatchesFilteredList(players: seq<Player>, ps: Params, lower: string -> string)
    ensures Get(ps, "signing") == Some("transfer") ==>
              |SortedPlayers(players, ps, lower)| == SigningCountsOf(players, ps, lower).newSignings
    ensures Get(ps, "signing") == Some("loan") ==>
              |SortedPlayers(players, ps, lower)| == SigningCountsOf(players, ps, lower).loans
  {
    var r := SortedPlayers(players, ps, lower);
    var list := Listed(players, ps, lower);
    assert |r| == |multiset(r)| == |multiset(list)| == |list|;
  }

  /** When every loan is also a new signing, the loan count never exceeds the
      new-signing count. */
  lemma LoansAmongNewSignings(players: seq<Player>, ps: Params, lower: string -> string)
    requires forall p :: p in players ==> p.isOnLoan ==> p.isNewSigning
    ensures SigningCountsOf(players, ps, lower).loans <= SigningCountsOf(players, ps, lower).newSignings
  {
    var base := BaseList(players, ParseFilters(ps), lower);
    CountMonotone(LoanRule(), NewSigningRule(), base);
  }
}
