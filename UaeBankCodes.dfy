/** The read-only table of UAE bank codes (the three digits after the IBAN
    check digits) and the banks they name. */
module UaeBankCodes {
  import opened Wrappers
  import opened Strings

  const Banks: map<string, string> := map[
    "033" := "Emirates NBD",
    "035" := "First Abu Dhabi Bank (FAB)",
    "030" := "Abu Dhabi Commercial Bank (ADCB)",
    "020" := "Mashreq Bank",
    "040" := "Dubai Islamic Bank (DIB)",
    "023" := "Commercial Bank of Dubai (CBD)",
    "032" := "Emirates Islamic Bank",
    "025" := "Abu Dhabi Islamic Bank (ADIB)",
    "045" := "Sharjah Islamic Bank",
    "065" := "Ajman Bank",
    "060" := "United Arab Bank (UAB)",
    "010" := "National Bank of Fujairah (NBF)",
    "012" := "Invest Bank",
    "016" := "National Bank of Ras Al-Khaimah (RAKBANK)",
    "046" := "Bank of Sharjah",
    "057" := "Citibank UAE",
    "031" := "HSBC UAE",
    "022" := "Standard Chartered UAE",
    "048" := "Lloyds Bank UAE",
    "052" := "Barclays UAE"
  ]

  predicate IsKnown(bankCode: string) {
    bankCode in Banks
  }

  /** A known code is one of the twenty listed, each three digits. */
  lemma KnownIsListed(bankCode: string)
    ensures IsKnown(bankCode) <==> bankCode in ListedCodes
    ensures IsKnown(bankCode) ==> |bankCode| == 3 && AllDigits(bankCode)
  {
    BankTableSize();
    ListedCodesAreDigits();
  }

  /** The bank's name for a known code, null (None) for any other string;
      never a fault. */
  function Resolve(bankCode: string): (r: Option<string>)
    ensures r.Some? <==> IsKnown(bankCode)
    ensures r.Some? ==> r.value == Banks[bankCode]
  {
    if bankCode in Banks then Some(Banks[bankCode]) else None
  }

  /** The twenty codes of the source's initialiser, grouped by their middle
      digit. */
  const ListedCodes: set<string> :=
    {"010", "012", "016"} + {"020", "022", "023", "025"} + {"030", "031", "032", "033", "035"} +
    {"040", "045", "046", "048"} + {"052", "057"} + {"060", "065"}

  /** The table has twenty keys: the twenty entries of the source's
      initialiser are pairwise distinct, so none overwrites another. */
  lemma BankTableSize()
    ensures Banks.Keys == ListedCodes
    ensures |Banks| == 20
  {
    ListedCodesDistinct();
    AllListedCodesKnown();
    assert Banks.Keys <= ListedCodes;
    KeysSize(Banks, ListedCodes);
  }

  /** The groups of `ListedCodes`. */
  const ByMiddle: seq<set<string>> := [
    {"010", "012", "016"}, {"020", "022", "023", "025"}, {"030", "031", "032", "033", "035"},
    {"040", "045", "046", "048"}, {"052", "057"}, {"060", "065"}
  ]

  /** The groups are disjoint and each group's codes differ in the last
      digit, so no code is listed twice. */
  lemma ListedCodesDistinct()
    ensures |ListedCodes| == 20
  {
    GroupsAddUp();
    assert ListedCodes == ByMiddle[0] + ByMiddle[1] + ByMiddle[2] + ByMiddle[3] + ByMiddle[4] + ByMiddle[5];
  }

  lemma GroupsAddUp()
    ensures |ByMiddle[0] + ByMiddle[1] + ByMiddle[2] + ByMiddle[3] + ByMiddle[4] + ByMiddle[5]| == 20
  {
    GroupShapes();
    DisjointGroupsAddUp(ByMiddle[0], ByMiddle[1], ByMiddle[2], ByMiddle[3], ByMiddle[4], ByMiddle[5]);
  }

  lemma GroupShapes()
    ensures |ByMiddle[0]| == 3 && |ByMiddle[1]| == 4 && |ByMiddle[2]| == 5
    ensures |ByMiddle[3]| == 4 && |ByMiddle[4]| == 2 && |ByMiddle[5]| == 2
    ensures forall i, x :: 0 <= i < 6 && x in ByMiddle[i] ==> |x| == 3 && x[1] as int == '1' as int + i
  {
  }

  lemma DisjointGroupsAddUp(g1: set<string>, g2: set<string>, g3: set<string>,
                            g4: set<string>, g5: set<string>, g6: set<string>)
    requires |g1| == 3 && |g2| == 4 && |g3| == 5 && |g4| == 4 && |g5| == 2 && |g6| == 2
    requires forall x :: x in g1 ==> |x| == 3 && x[1] == '1'
    requires forall x :: x in g2 ==> |x| == 3 && x[1] == '2'
    requires forall x :: x in g3 ==> |x| == 3 && x[1] == '3'
    requires forall x :: x in g4 ==> |x| == 3 && x[1] == '4'
    requires forall x :: x in g5 ==> |x| == 3 && x[1] == '5'
    requires forall x :: x in g6 ==> |x| == 3 && x[1] == '6'
    ensures |g1 + g2 + g3 + g4 + g5 + g6| == 20
  {
    DisjointByMiddle(g1, g2, '1', '2');
    DisjointByMiddle(g1 + g2, g3, '1', '3');
    DisjointByMiddle(g1 + g2 + g3, g4, '1', '4');
    DisjointByMiddle(g1 + g2 + g3 + g4, g5, '1', '5');
    DisjointByMiddle(g1 + g2 + g3 + g4 + g5, g6, '1', '6');
  }

  lemma AllListedCodesKnown()
    ensures ListedCodes <= Banks.Keys
  {
    forall code | code in ListedCodes
      ensures code in Banks.Keys
    {
    }
  }

  lemma KeysSize(m: map<string, string>, keys: set<string>)
    requires m.Keys <= keys && keys <= m.Keys
    ensures |m| == |keys|
  {
    assert m.Keys == keys;
  }

  /** Codes whose middle characters differ cannot coincide. */
  lemma DisjointByMiddle(a: set<string>, b: set<string>, lo: char, m: char)
    requires forall x :: x in a ==> |x| == 3 && lo <= x[1] < m
    requires forall y :: y in b ==> |y| == 3 && y[1] == m
    ensures a !! b && |a + b| == |a| + |b|
  {
  }

  lemma ListedCodesAreDigits()
    ensures forall code :: code in ListedCodes ==> |code| == 3 && AllDigits(code)
  {
  }

  lemma KnownBank()
    ensures Resolve("033") == Some("Emirates NBD")
    ensures Resolve("999").None?
  {
  }
}
