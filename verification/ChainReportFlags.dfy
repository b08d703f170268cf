/**
 * When the report's flags, which remember every measurement of a variable, agree with its lists, which are those of
 * the last: flag by flag, and for the verdict.
 */
module ChainReportFlags {
  import opened Bytes
  import opened EventLog
  import opened SignatureList
  import opened ChainReport

  type Test = CertInfo -> bool

  datatype Flag = KnownOem | MicrosoftKek | UefiCa2011 | UefiCa2023 | WindowsPca2011

  function VariableOf(flag: Flag): KeyVariable {
    match flag
    case KnownOem => PK
    case MicrosoftKek => KEK
    case _ => Db
  }

  /** The certificates that raise it. */
  function TestOf(flag: Flag): Test {
    match flag
    case KnownOem => (c: CertInfo) => c.isKnownOem
    case MicrosoftKek => (c: CertInfo) => c.isMicrosoft
    case UefiCa2011 => IsUefiCa2011
    case UefiCa2023 => IsUefiCa2023
    case WindowsPca2011 => IsWindowsPca2011
  }

  predicate Raised(r: Report, flag: Flag) {
    match flag
    case KnownOem => r.pkIsKnownOem
    case MicrosoftKek => r.kekHasMicrosoft
    case UefiCa2011 => r.dbHasUefiCa2011
    case UefiCa2023 => r.dbHasUefiCa2023
    case WindowsPca2011 => r.dbHasWindowsPca2011
  }

  /** The list the flag stands beside. */
  function ListOf(r: Report, flag: Flag): seq<CertInfo> {
    match flag
    case KnownOem => r.pkCerts
    case MicrosoftKek => r.kekCerts
    case _ => r.dbCerts
  }

  predicate Any(cs: seq<CertInfo>, test: Test) { exists c | c in cs :: test(c) }

  /** What the flag would be if it were about its list. */
  predicate Listed(r: Report, flag: Flag) { Any(ListOf(r, flag), TestOf(flag)) }

  predicate AnyIn(e: Entry, which: KeyVariable, decode: bytes -> CertInfo, test: Test) {
    Matches(e, which) && Any(InVariable(e.eventData, decode).certs, test)
  }

  /** A measurement of the variable before the last one held such a certificate. */
  predicate AnyEarlier(es: seq<Entry>, which: KeyVariable, decode: bytes -> CertInfo, test: Test) {
    exists i | 0 <= i < LastMatch(es, which) :: AnyIn(es[i], which, decode, test)
  }

  predicate Earlier(es: seq<Entry>, decode: bytes -> CertInfo, flag: Flag) {
    AnyEarlier(es, VariableOf(flag), decode, TestOf(flag))
  }

  lemma AnyOfAll(es: seq<Entry>, which: KeyVariable, decode: bytes -> CertInfo, test: Test)
    ensures Any(AllCerts(es, which, decode), test) <==> exists i | 0 <= i < |es| :: AnyIn(es[i], which, decode, test)
  {
    hide Matches, InVariable, AllCerts;
    if c :| c in AllCerts(es, which, decode) && test(c) {
      CountedIffContained(es, which, decode, c);
      var i :| 0 <= i < |es| && Matches(es[i], which) && c in InVariable(es[i].eventData, decode).certs;
      assert AnyIn(es[i], which, decode, test);
    }
    if i :| 0 <= i < |es| && AnyIn(es[i], which, decode, test) {
      var c :| c in InVariable(es[i].eventData, decode).certs && test(c);
      CountedIffContained(es, which, decode, c);
    }
  }

  /** Such a certificate was ever found: in an earlier measurement, or in the last. */
  lemma AllIsEarlierOrLast(es: seq<Entry>, which: KeyVariable, decode: bytes -> CertInfo, test: Test)
    ensures Any(AllCerts(es, which, decode), test)
       <==> AnyEarlier(es, which, decode, test) || Any(LastFound(es, which, decode).certs, test)
  {
    AnyOfAll(es, which, decode, test);
    LastMatchIsLast(es, which);
    hide Matches, InVariable, LastMatch, AllCerts, Any;
    var last := LastMatch(es, which);
    if last == -1 {
      NoneInNothing(test);
    } else {
      assert AnyIn(es[last], which, decode, test) <==> Any(LastFound(es, which, decode).certs, test);
    }
  }

  lemma NoneInNothing(test: Test)
    ensures !Any([], test)
  {
  }

  lemma FlagIsAll(r: Report, es: seq<Entry>, decode: bytes -> CertInfo, flag: Flag)
    requires Gathered(r, es, decode)
    ensures Raised(r, flag) == Any(AllCerts(es, VariableOf(flag), decode), TestOf(flag))
    ensures ListOf(r, flag) == LastFound(es, VariableOf(flag), decode).certs
  {
    hide AllCerts, LastFound, IsUefiCa2011, IsUefiCa2023, IsWindowsPca2011, OemName, Clamp;
  }

  /** The exact condition, for any of the five flags: nothing raised it before that would not raise it now. */
  lemma FlagAgreesIff(r: Report, es: seq<Entry>, decode: bytes -> CertInfo, flag: Flag)
    requires Gathered(r, es, decode)
    ensures Raised(r, flag) <==> Earlier(es, decode, flag) || Listed(r, flag)
    ensures (Raised(r, flag) <==> Listed(r, flag)) <==> (Earlier(es, decode, flag) ==> Listed(r, flag))
  {
    hide Gathered, AllCerts, LastFound, Any, AnyEarlier, TestOf, VariableOf, ListOf, Raised;
    FlagIsAll(r, es, decode, flag);
    AllIsEarlierOrLast(es, VariableOf(flag), decode, TestOf(flag));
  }

  /** The chain as it would be judged by the lists alone. */
  predicate ValidByLists(r: Report) {
    && r.secureBootEnabled && r.pkCerts != [] && Listed(r, MicrosoftKek)
    && (Listed(r, UefiCa2011) || Listed(r, UefiCa2023))
  }

  /** With Secure Boot on and a PK there, what KEK and db still hold or once held is enough. */
  predicate ValidByHistory(r: Report, es: seq<Entry>, decode: bytes -> CertInfo) {
    && r.secureBootEnabled && r.pkCerts != []
    && (Earlier(es, decode, MicrosoftKek) || Listed(r, MicrosoftKek))
    && (|| Earlier(es, decode, UefiCa2011) || Listed(r, UefiCa2011)
        || Earlier(es, decode, UefiCa2023) || Listed(r, UefiCa2023))
  }

  /**
   * The exact condition for the verdict: the chain is called valid on account of its history, and so agrees with its
   * lists if and only if the history is not enough or the lists are.
   */
  lemma ValidAgreesIff(r: Report, es: seq<Entry>, decode: bytes -> CertInfo)
    requires IsReport(r, es, decode)
    ensures r.chainValid <==> ValidByHistory(r, es, decode)
    ensures ValidByLists(r) ==> r.chainValid
    ensures (r.chainValid <==> ValidByLists(r)) <==>
      (ValidByHistory(r, es, decode) ==> Listed(r, MicrosoftKek) && (Listed(r, UefiCa2011) || Listed(r, UefiCa2023)))
  {
    hide Gathered, Earlier, Listed, LastSecureBoot;
    FlagAgreesIff(r, es, decode, MicrosoftKek);
    FlagAgreesIff(r, es, decode, UefiCa2011);
    FlagAgreesIff(r, es, decode, UefiCa2023);
  }

  /** Everything ever found is still listed exactly when every certificate of an earlier measurement is in the last. */
  lemma NothingForgottenIff(es: seq<Entry>, which: KeyVariable, decode: bytes -> CertInfo)
    ensures (forall c :: c in AllCerts(es, which, decode) <==> c in LastFound(es, which, decode).certs)
       <==> (forall i, c | 0 <= i < LastMatch(es, which) && Matches(es[i], which)
                           && c in InVariable(es[i].eventData, decode).certs :: c in LastFound(es, which, decode).certs)
  {
    hide Matches, InVariable, AllCerts, LastMatch;
    var last := LastMatch(es, which);
    LastMatchIsLast(es, which);
    forall c ensures c in AllCerts(es, which, decode) <==>
      exists i | 0 <= i < |es| :: Matches(es[i], which) && c in InVariable(es[i].eventData, decode).certs
    {
      CountedIffContained(es, which, decode, c);
    }
  }

  // ---- The OEM's name ----

  lemma {:induction false} OemNameOf(a: seq<CertInfo>, b: seq<CertInfo>)
    ensures OemName(a + b) == if HasKnownOem(b) then OemName(b) else OemName(a)
  {
    if b == [] {
      assert a + b == a;
    } else {
      var last := |b| - 1;
      assert (a + b)[..|a + b| - 1] == a + b[..last];
      OemNameOf(a, b[..last]);
      assert b == b[..last] + [b[last]];
    }
  }

  lemma {:induction false} AllUpToLast(es: seq<Entry>, which: KeyVariable, decode: bytes -> CertInfo)
    ensures var i := LastMatch(es, which);
      AllCerts(es, which, decode)
        == if i == -1 then [] else AllCerts(es[..i], which, decode) + LastFound(es, which, decode).certs
  {
    hide Matches, InVariable;
    if es != [] {
      var front := es[..|es| - 1];
      if !Matches(es[|es| - 1], which) {
        AllUpToLast(front, which, decode);
        var i := LastMatch(front, which);
        if i != -1 { assert front[..i] == es[..i] && front[i] == es[i]; }
        assert AllCerts(front, which, decode) + [] == AllCerts(front, which, decode);
      }
    }
  }

  /**
   * The name too can outlive the list: it is the list's unless that has no known OEM and an earlier one gave a name.
   */
  lemma OemNameAgreesIff(r: Report, es: seq<Entry>, decode: bytes -> CertInfo)
    requires Gathered(r, es, decode)
    ensures r.pkOemName == OemName(r.pkCerts) <==>
      || HasKnownOem(r.pkCerts) || LastMatch(es, PK) == -1
      || OemName(AllCerts(es[..LastMatch(es, PK)], PK, decode)) == ""
  {
    hide AllCerts, LastMatch, KekGathered, DbGathered, DbxGathered, Matches, InVariable;
    AllUpToLast(es, PK, decode);
    OemNameOf([], r.pkCerts);
    assert [] + r.pkCerts == r.pkCerts;
    var i := LastMatch(es, PK);
    if i != -1 { OemNameOf(AllCerts(es[..i], PK, decode), r.pkCerts); }
  }
}
