/** The pre-anchor table: its rows, its forms and the digest a ledger leaf embeds (internal/artifacts/sealing.go). */
module Sealing {
  import opened Text
  import opened Preimages

  datatype Row = Row(name: string, value: string)

  const WINDOW_ROW := "anchoring_window_seconds"
  const REQUIREMENT_ROW := "complete_record_anchor"
  const TABLE_V1 := "verdifax.preanchor.v1"
  const TABLE_V2 := "verdifax.preanchor.v2"
  const TABLE_V3 := "verdifax.preanchor.v3"
  const SCAFFOLD_DOMAIN := "verdifax.scaffold.flags.v1"

  /** A row of the name stands somewhere in the table. */
  ghost predicate HasRow(table: seq<Row>, name: string) { exists e :: e in table && e.name == name }

  method FindRow(table: seq<Row>, name: string) returns (found: bool)
    ensures found <==> HasRow(table, name)
  {
    for i := 0 to |table|
      invariant forall k :: 0 <= k < i ==> table[k].name != name
    {
      if table[i].name == name {
        assert table[i] in table;
        return true;
      }
    }
    return false;
  }

  method TableSealsAnchoringWindow(table: seq<Row>) returns (seals: bool)
    ensures seals <==> HasRow(table, WINDOW_ROW)
  {
    seals := FindRow(table, WINDOW_ROW);
  }

  method TableRequiresCompleteRecordAnchor(table: seq<Row>) returns (required: bool)
    ensures required <==> HasRow(table, REQUIREMENT_ROW)
  {
    required := FindRow(table, REQUIREMENT_ROW);
  }

  /** The domain a stored table is digested under. */
  ghost function TableForm(table: seq<Row>): string {
    if HasRow(table, WINDOW_ROW) then TABLE_V3 else if HasRow(table, REQUIREMENT_ROW) then TABLE_V2 else TABLE_V1
  }

  method PreAnchorTableForm(table: seq<Row>) returns (form: string)
    ensures form == TableForm(table)
  {
    var seals := TableSealsAnchoringWindow(table);
    if seals {
      return TABLE_V3;
    }
    var required := TableRequiresCompleteRecordAnchor(table);
    if required {
      return TABLE_V2;
    }
    return TABLE_V1;
  }

  function RowParts(table: seq<Row>): seq<string> {
    if table == [] then [] else [table[0].name, table[0].value] + RowParts(table[1..])
  }

  function TableText(domain: string, table: seq<Row>): string { Join([domain] + RowParts(table), NUL) }

  lemma {:induction false} RowPartsAppend(table: seq<Row>, e: Row)
    ensures RowParts(table + [e]) == RowParts(table) + [e.name, e.value]
  {
    if table == [] {
      assert table + [e] == [e];
      assert [e][1..] == [];
    } else {
      RowPartsAppend(table[1..], e);
      assert (table + [e])[1..] == table[1..] + [e];
    }
  }

  /**
   The digest of a table in its own order under a domain; each of the source's three digests is this at its domain.
   */
  method TableDigest(H: Hash, domain: string, table: seq<Row>) returns (hex: string)
    ensures hex == H(TableText(domain, table))
  {
    var parts := [domain];
    for i := 0 to |table|
      invariant parts == [domain] + RowParts(table[..i])
    {
      parts := parts + [table[i].name, table[i].value];
      RowPartsAppend(table[..i], table[i]);
      assert table[..i] + [table[i]] == table[..i + 1];
    }
    assert table[..|table|] == table;
    hex := H(Join(parts, NUL));
  }

  method DigestForTable(H: Hash, table: seq<Row>) returns (hex: string)
    ensures hex == H(TableText(TableForm(table), table))
  {
    var form := PreAnchorTableForm(table);
    hex := TableDigest(H, form, table);
  }

  lemma {:induction false} RowPartsUnique(a: seq<Row>, b: seq<Row>)
    requires RowParts(a) == RowParts(b)
    ensures a == b
    decreases |a|
  {
    if a != [] && b != [] {
      var x, y := RowParts(a), RowParts(b);
      assert x[0] == y[0] && x[1] == y[1] && x[2..] == RowParts(a[1..]) && y[2..] == RowParts(b[1..]);
      RowPartsUnique(a[1..], b[1..]);
      assert a == [a[0]] + a[1..] && b == [b[0]] + b[1..];
    }
  }

  ghost predicate TableNulFree(table: seq<Row>) { forall e :: e in table ==> NUL !in e.name && NUL !in e.value }

  lemma {:induction false} RowPartsFree(table: seq<Row>)
    requires TableNulFree(table)
    ensures AllFree(RowParts(table), NUL)
  {
    if table != [] {
      RowPartsFree(table[1..]);
      assert table[0] in table;
    }
  }

  /** A table's text fixes its domain and every row. */
  lemma {:induction false} TableTextUnique(d: string, a: seq<Row>, e: string, b: seq<Row>)
    requires NUL !in d && NUL !in e && TableNulFree(a) && TableNulFree(b)
    requires TableText(d, a) == TableText(e, b)
    ensures d == e && a == b
  {
    hide Join, TableNulFree;
    RowPartsFree(a);
    RowPartsFree(b);
    var x, y := [d] + RowParts(a), [e] + RowParts(b);
    JoinInjective(x, y, NUL);
    assert x[0] == d && y[0] == e && x[1..] == RowParts(a) && y[1..] == RowParts(b);
    RowPartsUnique(a, b);
  }

  function BoolWord(b: bool): string { if b then "true" else "false" }

  datatype Scaffold = Scaffold(transcript: bool, hardware: bool, zksp: bool, leakage: bool)

  function ScaffoldFields(s: Scaffold): seq<string> {
    [BoolWord(s.transcript), BoolWord(s.hardware), BoolWord(s.zksp), BoolWord(s.leakage)]
  }

  function ScaffoldText(s: Scaffold): string { Join([SCAFFOLD_DOMAIN] + ScaffoldFields(s), NUL) }

  lemma {:induction false} ScaffoldTextUnique(a: Scaffold, b: Scaffold)
    requires ScaffoldText(a) == ScaffoldText(b)
    ensures a == b
  {
    hide Join, BoolWord;
    ScaffoldFree(a);
    ScaffoldFree(b);
    var x, y := [SCAFFOLD_DOMAIN] + ScaffoldFields(a), [SCAFFOLD_DOMAIN] + ScaffoldFields(b);
    JoinInjective(x, y, NUL);
    assert x[1] == y[1] && x[2] == y[2] && x[3] == y[3] && x[4] == y[4];
    WordUnique(a.transcript, b.transcript);
    WordUnique(a.hardware, b.hardware);
    WordUnique(a.zksp, b.zksp);
    WordUnique(a.leakage, b.leakage);
  }

  lemma {:induction false} WordUnique(a: bool, b: bool)
    ensures BoolWord(a) == BoolWord(b) ==> a == b
  {
  }

  lemma {:induction false} ScaffoldFree(a: Scaffold)
    ensures AllFree([SCAFFOLD_DOMAIN] + ScaffoldFields(a), NUL)
  {
    WordFree(a.transcript);
    WordFree(a.hardware);
    WordFree(a.zksp);
    WordFree(a.leakage);
  }

  lemma {:induction false} WordFree(b: bool)
    ensures NUL !in BoolWord(b)
  {
  }
}

/** Binding a public-log leaf to a record, and the sealed requirement it protects (leafbinding.go, bundleanchor.go). */
module LeafBinding {
  import opened Text
  import opened Decimal
  import opened Job
  import opened Preimages
  import opened Sealing

  /** The parts of a bundle the leaf is rebuilt from. The AER and binding hashes are the sealed ones. */
  datatype Record = Record(backend: string, leafHashHex: string, inputNonce: int, envelopeId: string, aerHash: string,
      bindingHash: string, preAnchor: seq<Row>, preAnchorDigest: string, nrep: NrepSection, nrepSectionHash: string,
      scaffold: Scaffold, scaffoldFlagsHash: string)

  datatype Form = V1 | V2 | V3 | V5 | V6 | V7

  function Domain(f: Form): string {
    match f
    case V1 => "verdifax.ledger.input.v1"
    case V2 => "verdifax.ledger.input.v2"
    case V3 => "verdifax.ledger.input.v3"
    case V5 => "verdifax.ledger.input.v5"
    case V6 => "verdifax.ledger.input.v6"
    case V7 => "verdifax.ledger.input.v7"
  }

  /** The leaf form a record's own contents select. */
  ghost function FormOf(r: Record): Form {
    if HasRow(r.preAnchor, WINDOW_ROW) then V7
    else if HasRow(r.preAnchor, REQUIREMENT_ROW) then V6
    else if r.preAnchor != [] || r.preAnchorDigest != "" then V5
    else if r.nrepSectionHash != "" || r.scaffoldFlagsHash != "" then V3
    else if r.inputNonce != 0 then V2
    else V1
  }

  /** What follows the nonce: digests recomputed from the record's sections. */
  ghost function Digests(H: Hash, r: Record): seq<string> {
    match FormOf(r)
    case V1 => []
    case V2 => []
    case V3 => [H(SectionText(r.nrep)), H(ScaffoldText(r.scaffold))]
    case _ => [H(TableText(TableForm(r.preAnchor), r.preAnchor))]
  }

  ghost function LeafFields(H: Hash, r: Record): seq<string> {
    [r.envelopeId, r.aerHash, r.bindingHash] + (if FormOf(r) == V1 then [] else [PrintInt(r.inputNonce)])
        + Digests(H, r)
  }

  ghost function LeafText(H: Hash, r: Record): string { Join([Domain(FormOf(r))] + LeafFields(H, r), '.') }

  /** Nothing needed to rebuild the leaf is empty. */
  predicate Complete(r: Record) { r.envelopeId != "" && r.aerHash != "" && r.bindingHash != "" && r.leafHashHex != "" }

  /** The leaf the record claims is the one its own contents make. `L` is strings.ToLower. */
  ghost predicate LeafMatches(H: Hash, L: string -> string, r: Record) {
    r.backend == "rekor" && Complete(r) && H(LeafText(H, r)) == L(r.leafHashHex)
  }

  datatype Check = NotPerformed | Missing(names: seq<string>) | Compared(form: Form, recorded: string, computed: string)

  function Names(r: Record): seq<string> {
    (if r.envelopeId == "" then ["envelope.envelope_id"] else [])
        + (if r.aerHash == "" then ["aer.seal.sealed_hash"] else [])
        + (if r.bindingHash == "" then ["zksp_binding.seal.sealed_hash"] else [])
        + if r.leafHashHex == "" then ["rekor_anchor.leaf_hash"] else []
  }

  method MissingNames(r: Record) returns (missing: seq<string>)
    ensures missing == Names(r) && (missing == [] <==> Complete(r))
  {
    missing := [];
    if r.envelopeId == "" {
      missing := missing + ["envelope.envelope_id"];
    }
    if r.aerHash == "" {
      missing := missing + ["aer.seal.sealed_hash"];
    }
    if r.bindingHash == "" {
      missing := missing + ["zksp_binding.seal.sealed_hash"];
    }
    if r.leafHashHex == "" {
      missing := missing + ["rekor_anchor.leaf_hash"];
    }
  }

  function JoinLeafParts(parts: seq<string>): string { Join(parts, '.') }

  /** verifyLeafBinding: select the form from the data, recompute its digests, compare the leaf. */
  method VerifyLeafBinding(H: Hash, L: string -> string, r: Record) returns (check: Check, matches: bool)
    ensures matches <==> LeafMatches(H, L, r)
    ensures check.NotPerformed? <==> r.backend != "rekor"
    ensures r.backend == "rekor" ==>
        check == if Complete(r) then Compared(FormOf(r), L(r.leafHashHex), H(LeafText(H, r))) else Missing(Names(r))
  {
    hide Join, TableText, SectionText, ScaffoldText, HasRow;
    if r.backend != "rekor" {
      return NotPerformed, false;
    }
    var missing := MissingNames(r);
    if |missing| > 0 {
      return Missing(missing), false;
    }
    var preimage, form;
    var seals := TableSealsAnchoringWindow(r.preAnchor);
    var required := TableRequiresCompleteRecordAnchor(r.preAnchor);
    if seals {
      form := V7;
      var digest := TableDigest(H, TABLE_V3, r.preAnchor);
      preimage := JoinLeafParts([Domain(V7), r.envelopeId, r.aerHash, r.bindingHash, PrintInt(r.inputNonce), digest]);
    } else if required {
      form := V6;
      var digest := TableDigest(H, TABLE_V2, r.preAnchor);
      preimage := JoinLeafParts([Domain(V6), r.envelopeId, r.aerHash, r.bindingHash, PrintInt(r.inputNonce), digest]);
    } else if |r.preAnchor| > 0 || r.preAnchorDigest != "" {
      form := V5;
      var digest := TableDigest(H, TABLE_V1, r.preAnchor);
      preimage := JoinLeafParts([Domain(V5), r.envelopeId, r.aerHash, r.bindingHash, PrintInt(r.inputNonce), digest]);
    } else if r.nrepSectionHash != "" || r.scaffoldFlagsHash != "" {
      form := V3;
      var nrep := SectionHash(H, r.nrep);
      var scaffold := NullJoinHash(H, SCAFFOLD_DOMAIN, ScaffoldFields(r.scaffold));
      assert scaffold == H(ScaffoldText(r.scaffold)) by { ScaffoldDigest(H, r.scaffold); }
      preimage := JoinLeafParts([Domain(V3), r.envelopeId, r.aerHash, r.bindingHash, PrintInt(r.inputNonce), nrep,
          scaffold]);
    } else if r.inputNonce != 0 {
      form := V2;
      preimage := JoinLeafParts([Domain(V2), r.envelopeId, r.aerHash, r.bindingHash, PrintInt(r.inputNonce)]);
    } else {
      form := V1;
      preimage := JoinLeafParts([Domain(V1), r.envelopeId, r.aerHash, r.bindingHash]);
    }
    LeafParts(H, r);
    var computed := H(preimage);
    var recorded := L(r.leafHashHex);
    return Compared(form, recorded, computed), computed == recorded;
  }

  lemma {:induction false} ScaffoldDigest(H: Hash, s: Scaffold)
    ensures NullJoinHash(H, SCAFFOLD_DOMAIN, ScaffoldFields(s)) == H(ScaffoldText(s))
  {
  }

  lemma {:induction false} LeafParts(H: Hash, r: Record)
    ensures var head := [Domain(FormOf(r)), r.envelopeId, r.aerHash, r.bindingHash];
            [Domain(FormOf(r))] + LeafFields(H, r) ==
            match FormOf(r)
            case V1 => head
            case V2 => [Domain(V2), r.envelopeId, r.aerHash, r.bindingHash, PrintInt(r.inputNonce)]
            case V3 => [Domain(V3), r.envelopeId, r.aerHash, r.bindingHash, PrintInt(r.inputNonce),
                H(SectionText(r.nrep)), H(ScaffoldText(r.scaffold))]
            case f => [Domain(f), r.envelopeId, r.aerHash, r.bindingHash, PrintInt(r.inputNonce),
                H(TableText(TableForm(r.preAnchor), r.preAnchor))]
  {
  }

  // ----- What a leaf fixes -----

  /** The identity fields carry no dot. */
  ghost predicate Undotted(r: Record) { '.' !in r.envelopeId && '.' !in r.aerHash && '.' !in r.bindingHash }

  /** What the form's digests are taken over can be read back: no NUL, and a job block of its shape. */
  ghost predicate PlainSealed(r: Record) {
    match FormOf(r)
    case V1 => true
    case V2 => true
    case V3 => NulFree(SectionParts(r.nrep)) && JobOk(r.nrep.job)
    case _ => TableNulFree(r.preAnchor)
  }

  /** The texts hashed for a record's leaf. */
  ghost function LeafTexts(H: Hash, r: Record): set<string> {
    {LeafText(H, r)} + SealedTexts(r)
  }

  ghost function SealedTexts(r: Record): set<string> {
    match FormOf(r)
    case V1 => {}
    case V2 => {}
    case V3 => {SectionText(r.nrep), ScaffoldText(r.scaffold)}
    case _ => {TableText(TableForm(r.preAnchor), r.preAnchor)}
  }

  ghost predicate SameIdentity(r: Record, s: Record) {
    r.envelopeId == s.envelopeId && r.aerHash == s.aerHash && r.bindingHash == s.bindingHash
        && r.inputNonce == s.inputNonce
  }

  /** What the form's digests cover is the same in both records. */
  ghost predicate SameSealed(r: Record, s: Record) {
    match FormOf(r)
    case V1 => true
    case V2 => true
    case V3 => SeenSection(r.nrep) == SeenSection(s.nrep) && r.scaffold == s.scaffold
    case _ => r.preAnchor == s.preAnchor
  }

  lemma {:induction false} PrintIntFree(n: int)
    ensures '.' !in PrintInt(n)
  {
    PrintThenRead(if n < 0 then -n else n);
  }

  lemma {:induction false} LeafFieldsFree(H: Hash, r: Record)
    requires HexHash(H) && Undotted(r)
    ensures AllFree(LeafFields(H, r), '.')
  {
    hide PrintInt, SectionText, TableText, ScaffoldText, FormOf;
    PrintIntFree(r.inputNonce);
    forall d | d in Digests(H, r) ensures '.' !in d { assert exists x :: d == H(x); }
  }

  /** Every form has its own number of fields. */
  lemma {:induction false} LeafFieldsCount(H: Hash, r: Record)
    ensures |LeafFields(H, r)| == match FormOf(r) case V1 => 3 case V2 => 4 case V3 => 6 case _ => 5
  {
    hide PrintInt, SectionText, TableText, ScaffoldText, FormOf;
  }

  /**
   The domain tag, for all its dots, comes off the front: every tag has the same length. It fixes how many fields
   follow, so a record whose own fields may hold dots cannot pass for one whose fields hold none.
   */
  lemma {:induction false} LeafTextUnique(H: Hash, r: Record, s: Record)
    requires HexHash(H) && Undotted(r) && LeafText(H, r) == LeafText(H, s)
    ensures FormOf(r) == FormOf(s) && LeafFields(H, r) == LeafFields(H, s)
  {
    hide FormOf, LeafFields, HexHash, Undotted;
    LeafFieldsFree(H, r);
    LeafFieldsCount(H, r);
    LeafFieldsCount(H, s);
    var x, y := Join(LeafFields(H, r), '.'), Join(LeafFields(H, s), '.');
    assert ([Domain(FormOf(r))] + LeafFields(H, r))[1..] == LeafFields(H, r);
    assert ([Domain(FormOf(s))] + LeafFields(H, s))[1..] == LeafFields(H, s);
    assert LeafText(H, r) == Domain(FormOf(r)) + ("." + x) && LeafText(H, s) == Domain(FormOf(s)) + ("." + y);
    PrefixUnique(Domain(FormOf(r)), "." + x, Domain(FormOf(s)), "." + y);
    assert ("." + x)[1..] == x && ("." + y)[1..] == y;
    assert Domain(FormOf(r))[23] == Domain(FormOf(s))[23];
    JoinFixedLength(LeafFields(H, r), LeafFields(H, s), '.');
  }

  lemma {:induction false} FieldsUnique(H: Hash, r: Record, s: Record)
    requires FormOf(r) == FormOf(s) && LeafFields(H, r) == LeafFields(H, s)
    ensures SameIdentity(r, s) && Digests(H, r) == Digests(H, s)
  {
    var f, g := LeafFields(H, r), LeafFields(H, s);
    assert f[0] == g[0] && f[1] == g[1] && f[2] == g[2];
    if FormOf(r) != V1 {
      assert f[3] == g[3] && f[4..] == Digests(H, r) && g[4..] == Digests(H, s);
      assert PrintInt(r.inputNonce) + "" == PrintInt(r.inputNonce)
          && PrintInt(s.inputNonce) + "" == PrintInt(s.inputNonce);
      PrintIntUnique(r.inputNonce, "", s.inputNonce, "");
    }
  }

  /** Equal digests in a form that seals the table come from one table, row for row. */
  lemma {:induction false} TableFixed(H: Hash, r: Record, s: Record, S: set<string>)
    requires FormOf(r) == FormOf(s) && FormOf(r) !in {V1, V2, V3} && Digests(H, r) == Digests(H, s)
    requires TableNulFree(r.preAnchor) && TableNulFree(s.preAnchor)
    requires InjectiveOn(H, S) && SealedTexts(r) + SealedTexts(s) <= S
    ensures r.preAnchor == s.preAnchor
  {
    hide TableText, TableNulFree, InjectiveOn, FormOf, HasRow;
    var f, g := TableForm(r.preAnchor), TableForm(s.preAnchor);
    assert Digests(H, r)[0] == Digests(H, s)[0];
    assert TableText(f, r.preAnchor) in SealedTexts(r) && TableText(g, s.preAnchor) in SealedTexts(s);
    SameText(H, TableText(f, r.preAnchor), TableText(g, s.preAnchor), S);
    TableTextUnique(f, r.preAnchor, g, s.preAnchor);
  }

  lemma {:induction false} SectionFixed(H: Hash, r: Record, s: Record, S: set<string>)
    requires FormOf(r) == FormOf(s) == V3 && Digests(H, r) == Digests(H, s) && PlainSealed(r) && PlainSealed(s)
    requires InjectiveOn(H, S) && SealedTexts(r) + SealedTexts(s) <= S
    ensures SeenSection(r.nrep) == SeenSection(s.nrep) && r.scaffold == s.scaffold
  {
    hide Join, SectionText, ScaffoldText, NulFree, InjectiveOn, FormOf, Valid, SeenSection;
    assert Digests(H, r)[0] == Digests(H, s)[0] && Digests(H, r)[1] == Digests(H, s)[1];
    SameText(H, SectionText(r.nrep), SectionText(s.nrep), S);
    PartsOf(SectionParts(r.nrep), SectionParts(s.nrep)) by { SectionJoin(r.nrep); SectionJoin(s.nrep); }
    SectionPartsUnique(r.nrep, s.nrep);
    SameText(H, ScaffoldText(r.scaffold), ScaffoldText(s.scaffold), S);
    ScaffoldTextUnique(r.scaffold, s.scaffold);
  }

  lemma {:induction false} SectionJoin(n: NrepSection)
    ensures SectionText(n) == Join(SectionParts(n), NUL) && |SectionParts(n)| >= 1
  {
  }

  /**
   Two records that match the same public-log leaf have the same form and identity, and the same contents under
   its digests: the table row for row for v5 to v7, the actor section and scaffold flags for v3.
   */
  lemma {:induction false} LeafFixesRecord(H: Hash, L: string -> string, r: Record, s: Record)
    requires HexHash(H) && Undotted(r) && PlainSealed(r) && PlainSealed(s)
    requires InjectiveOn(H, LeafTexts(H, r) + LeafTexts(H, s))
    requires LeafMatches(H, L, r) && LeafMatches(H, L, s) && L(r.leafHashHex) == L(s.leafHashHex)
    ensures FormOf(r) == FormOf(s) && SameIdentity(r, s) && SameSealed(r, s)
  {
    hide FormOf, LeafText, Digests, Undotted, HexHash, InjectiveOn, SealedTexts, NulFree, TableNulFree, Complete;
    var S := LeafTexts(H, r) + LeafTexts(H, s);
    SameText(H, LeafText(H, r), LeafText(H, s), S);
    LeafTextUnique(H, r, s);
    FieldsUnique(H, r, s);
    match FormOf(r)
    case V1 =>
    case V2 =>
    case V3 => SectionFixed(H, r, s, S);
    case _ => TableFixed(H, r, s, S);
  }

  // ----- The requirement -----

  /** What the check on bundle_anchor found. `performed` says it is itself a verified public-log entry. */
  datatype BundleAnchor = BundleAnchor(present: bool, matches: bool, performed: bool)

  datatype Why = NothingWrong | NoTable | TableTooOld | Absent | DoesNotHold | OffTheLog

  datatype Requirement = Requirement(demanded: bool, satisfied: bool, why: Why)

  /** The anchored table states that a complete-record anchor is required. */
  ghost predicate Demanded(r: Record) { HasRow(r.preAnchor, REQUIREMENT_ROW) }

  /** It is required and there is one that holds, on the public log when the run itself is. */
  ghost predicate Satisfied(r: Record, ba: BundleAnchor) {
    Demanded(r) && ba.present && ba.matches && (r.backend == "rekor" ==> ba.performed)
  }

  /** verifyCompleteRecordRequirement. */
  method VerifyCompleteRecordRequirement(r: Record, ba: BundleAnchor) returns (out: Requirement)
    ensures out.demanded <==> Demanded(r)
    ensures out.satisfied <==> Satisfied(r, ba)
    ensures out.why == if !out.demanded then (if r.preAnchor == [] then NoTable else TableTooOld)
                       else if out.satisfied then NothingWrong
                       else if !ba.present then Absent else if !ba.matches then DoesNotHold else OffTheLog
  {
    var required := TableRequiresCompleteRecordAnchor(r.preAnchor);
    if !required {
      var why := NoTable;
      if |r.preAnchor| > 0 {
        why := TableTooOld;
      }
      return Requirement(false, false, why);
    }
    out := Requirement(true, false, NothingWrong);
    if !ba.present {
      out := out.(why := Absent);
    } else if !ba.matches {
      out := out.(why := DoesNotHold);
    } else if r.backend == "rekor" && !ba.performed {
      out := out.(why := OffTheLog);
    } else {
      out := out.(satisfied := true);
    }
  }

  /**
   The requirement row survives: a record matching the leaf of one that states the requirement states it too. Only
   the logged record's identity is known to be free of dots; of both tables no string holds a NUL.
   */
  lemma {:induction false} RequirementSurvives(H: Hash, L: string -> string, r: Record, s: Record)
    requires HexHash(H) && Undotted(r) && TableNulFree(r.preAnchor) && TableNulFree(s.preAnchor)
    requires InjectiveOn(H, LeafTexts(H, r) + LeafTexts(H, s))
    requires LeafMatches(H, L, r) && LeafMatches(H, L, s) && L(r.leafHashHex) == L(s.leafHashHex)
    ensures Demanded(r) <==> Demanded(s)
  {
    hide LeafText, Digests, Undotted, HexHash, InjectiveOn, SealedTexts, TableNulFree, HasRow, Complete;
    var S := LeafTexts(H, r) + LeafTexts(H, s);
    SameText(H, LeafText(H, r), LeafText(H, s), S);
    LeafTextUnique(H, r, s);
    FieldsUnique(H, r, s);
    if FormOf(r) == V7 {
      TableFixed(H, r, s, S);
    }
  }

  /**
   So stripping or breaking the record anchor of a record whose leaf was logged with the requirement cannot end in
   "no requirement": the copy is found to demand it and not to meet it.
   */
  lemma {:induction false} StrippedCopyFails(H: Hash, L: string -> string, r: Record, s: Record, ba: BundleAnchor)
    requires HexHash(H) && Undotted(r) && TableNulFree(r.preAnchor) && TableNulFree(s.preAnchor)
    requires InjectiveOn(H, LeafTexts(H, r) + LeafTexts(H, s))
    requires LeafMatches(H, L, r) && LeafMatches(H, L, s) && L(r.leafHashHex) == L(s.leafHashHex)
    requires Demanded(r) && (!ba.present || !ba.matches || !ba.performed)
    ensures Demanded(s) && !Satisfied(s, ba)
  {
    RequirementSurvives(H, L, r, s);
  }

  // ----- What refusing NUL is for -----

  /** A table that states a window and the requirement. */
  function TwoRows(w: string, v: string): seq<Row> { [Row(WINDOW_ROW, w), Row(REQUIREMENT_ROW, v)] }

  /** One row whose value spells the requirement out between two NULs. */
  function OneRow(w: string, v: string): seq<Row> { [Row(WINDOW_ROW, w + [NUL] + (REQUIREMENT_ROW + [NUL] + v))] }

  /** Joining cannot tell two parts from one that holds the separator between them. */
  lemma {:induction false} JoinFolds(a: seq<string>, x: string, y: string, sep: char)
    ensures Join(a + [x, y], sep) == Join(a + [x + [sep] + y], sep)
  {
    if a == [] {
      assert a + [x, y] == [x, y] && a + [x + [sep] + y] == [x + [sep] + y] && [x, y][1..] == [y];
    } else {
      JoinFolds(a[1..], x, y, sep);
      assert (a + [x, y])[1..] == a[1..] + [x, y] && (a + [x + [sep] + y])[1..] == a[1..] + [x + [sep] + y];
    }
  }

  lemma {:induction false} FoldedText(d: string, w: string, v: string)
    ensures TableText(d, TwoRows(w, v)) == TableText(d, OneRow(w, v))
  {
    hide Join;
    var a, b := TwoRows(w, v), OneRow(w, v);
    assert a[1..] == [Row(REQUIREMENT_ROW, v)] && a[1..][1..] == [] && b[1..] == [];
    assert RowParts(a) == [WINDOW_ROW, w] + RowParts(a[1..]);
    assert RowParts(a[1..]) == [REQUIREMENT_ROW, v] + RowParts(a[1..][1..]);
    assert RowParts(b) == [WINDOW_ROW, b[0].value] + RowParts(b[1..]);
    assert [d] + RowParts(a) == [d, WINDOW_ROW, w] + [REQUIREMENT_ROW, v];
    JoinFolds([d, WINDOW_ROW, w], REQUIREMENT_ROW, v, NUL);
    var rest := REQUIREMENT_ROW + [NUL] + v;
    assert [d, WINDOW_ROW, w] + [rest] == [d, WINDOW_ROW] + [w, rest];
    JoinFolds([d, WINDOW_ROW], w, rest, NUL);
    assert [d] + RowParts(b) == [d, WINDOW_ROW] + [w + [NUL] + rest];
  }

  lemma {:induction false} FoldedRows(w: string, v: string)
    ensures HasRow(TwoRows(w, v), WINDOW_ROW) && HasRow(TwoRows(w, v), REQUIREMENT_ROW)
    ensures HasRow(OneRow(w, v), WINDOW_ROW) && !HasRow(OneRow(w, v), REQUIREMENT_ROW)
  {
    var t := TwoRows(w, v);
    assert t[0] in t && t[1] in t && OneRow(w, v)[0] in OneRow(w, v);
  }

  /** With a NUL in the copy's table the requirement folds into a value: one leaf text, and the demand is gone. */
  lemma {:induction false} NulHidesRequirement(H: Hash, r: Record, w: string, v: string)
    ensures var a, b := r.(preAnchor := TwoRows(w, v)), r.(preAnchor := OneRow(w, v));
            LeafText(H, a) == LeafText(H, b) && Demanded(a) && !Demanded(b)
  {
    hide Join, TableText, HasRow, TwoRows, OneRow;
    FoldedRows(w, v);
    FoldedText(TABLE_V3, w, v);
  }
}
