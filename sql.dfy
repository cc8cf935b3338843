/** The text of the two listing queries, as `llist` writes them. */
module ListingSql {

  /** The 24-space indent of a line inside a triple-quoted query. */
  const Indent: string := "                        "

  /** A line of a triple-quoted query: a line break and the indent. */
  function Line(text: string): string {
    "\n" + Indent + text
  }

  /** The text closing a triple-quoted query: a line break and a 20-space indent. */
  const Close: string := "\n" + "                    "

  const SelectDomain: string := "SELECT domains.domain_name"
  const FromDomains: string := "FROM domains"
  const JoinDetails: string := "INNER JOIN domain_details"
  const OnId: string := " ON domains.id = "
  const DetailsId: string := "domain_details.domain_id"
  const WhereProgram: string := "WHERE domains.program_id = "
  const SelectIp: string := "SELECT DISTINCT domain_details.ip"
  const FromDetails: string := " FROM domain_details"
  const JoinDomains: string := "JOIN domains ON domains.id = "
  const IpNotNull: string := " AND domain_details.ip IS NOT NULL"

  /** The domain listing of a program, up to its one placeholder, the program id. */
  const DomainSelect: string :=
    Line(SelectDomain) + Line(FromDomains) + Line(JoinDetails) + OnId + DetailsId + Line(WhereProgram)
  const DomainOrderBy: string := " ORDER BY domains.domain_name"

  /** The distinct non-NULL IPs of a program, up to its one placeholder, the program id. */
  const IpSelect: string :=
    Line(SelectIp) + FromDetails + Line(JoinDomains) + DetailsId + Line(WhereProgram)
  const IpTail: string := IpNotNull + Close
  const IpOrderBy: string := " ORDER BY domain_details.ip"

  function DomainBase(): string {
    DomainSelect + "?" + Close
  }

  function IpBase(): string {
    IpSelect + "?" + IpTail
  }

  /** None of the fixed text around the placeholder holds a `?`. */
  lemma SqlClear()
    ensures '?' !in DomainSelect && '?' !in Close && '?' !in DomainOrderBy
    ensures '?' !in IpSelect && '?' !in IpTail && '?' !in IpOrderBy
  {
    DomainSelectClear();
    IpSelectClear();
    CloseClear();
    OrderClear();
    IpNotNullClear();
    ClearAppend(IpNotNull, Close);
  }

  lemma DomainSelectClear()
    ensures '?' !in DomainSelect
  {
    DomainWordsClear();
    DetailsIdClear();
    LineClear(SelectDomain);
    LineClear(FromDomains);
    LineClear(JoinDetails);
    LineClear(WhereProgram);
    ClearAppend(Line(SelectDomain), Line(FromDomains));
    ClearAppend(Line(SelectDomain) + Line(FromDomains), Line(JoinDetails));
    ClearAppend(Line(SelectDomain) + Line(FromDomains) + Line(JoinDetails), OnId);
    ClearAppend(Line(SelectDomain) + Line(FromDomains) + Line(JoinDetails) + OnId, DetailsId);
    ClearAppend(Line(SelectDomain) + Line(FromDomains) + Line(JoinDetails) + OnId + DetailsId, Line(WhereProgram));
  }

  lemma IpSelectClear()
    ensures '?' !in IpSelect
  {
    IpWordsClear();
    DetailsIdClear();
    DomainWordsClear();
    LineClear(SelectIp);
    LineClear(JoinDomains);
    LineClear(WhereProgram);
    ClearAppend(Line(SelectIp), FromDetails);
    ClearAppend(Line(SelectIp) + FromDetails, Line(JoinDomains));
    ClearAppend(Line(SelectIp) + FromDetails + Line(JoinDomains), DetailsId);
    ClearAppend(Line(SelectIp) + FromDetails + Line(JoinDomains) + DetailsId, Line(WhereProgram));
  }

  lemma ClearAppend(a: string, b: string)
    requires '?' !in a && '?' !in b
    ensures '?' !in a + b
  {
  }

  lemma LineClear(text: string)
    requires '?' !in text
    ensures '?' !in Line(text)
  {
    IndentClear();
    ClearAppend("\n", Indent);
    ClearAppend("\n" + Indent, text);
  }

  lemma IndentClear()
    ensures '?' !in Indent
  {
  }

  lemma CloseClear()
    ensures '?' !in Close
  {
  }

  lemma OrderClear()
    ensures '?' !in DomainOrderBy && '?' !in IpOrderBy
  {
  }

  lemma DomainWordsClear()
    ensures '?' !in SelectDomain && '?' !in FromDomains && '?' !in JoinDetails
    ensures '?' !in OnId && '?' !in WhereProgram
  {
    SelectDomainClear();
    JoinDetailsClear();
    WhereProgramClear();
  }

  lemma SelectDomainClear()
    ensures '?' !in SelectDomain && '?' !in FromDomains
  {
  }

  lemma JoinDetailsClear()
    ensures '?' !in JoinDetails && '?' !in OnId
  {
  }

  lemma WhereProgramClear()
    ensures '?' !in WhereProgram
  {
  }

  lemma DetailsIdClear()
    ensures '?' !in DetailsId
  {
  }

  lemma IpWordsClear()
    ensures '?' !in SelectIp && '?' !in FromDetails && '?' !in JoinDomains
  {
  }

  lemma IpNotNullClear()
    ensures '?' !in IpNotNull
  {
  }

  /** The text around the column name in the condition a whitelisted filter adds. */
  const ClauseHead: string := " AND domain_details."
  const ClauseTail: string := " LIKE ?"

  /** The head of a condition holds no `?` and its tail exactly one. */
  lemma ClauseText()
    ensures '?' !in ClauseHead && ClauseTail == " LIKE " + "?" && '?' !in " LIKE "
  {
  }
}
