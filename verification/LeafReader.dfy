/** Ledger leaves and pre-anchor tables read back, and what the requirement check says in the rows' own names. */
module LeafReader {
  import opened Text
  import opened Decimal
  import opened Job
  import opened Preimages
  import opened Sealing
  import opened LeafBinding

  // ----- Tables -----

  function ReadRows(parts: seq<string>): seq<Row> {
    if |parts| < 2 then [] else [Row(parts[0], parts[1])] + ReadRows(parts[2..])
  }

  lemma {:induction false} RowsRead(table: seq<Row>)
    ensures ReadRows(RowParts(table)) == table
  {
    if table != [] {
      RowsRead(table[1..]);
      assert RowParts(table)[2..] == RowParts(table[1..]);
      assert table == [table[0]] + table[1..];
    }
  }

  /** A table's text reads back as its domain and its rows, each a name and then a value. */
  lemma {:induction false} TableReads(domain: string, table: seq<Row>)
    requires '\0' !in domain && TableNulFree(table)
    ensures var parts := Split(TableText(domain, table), '\0'); parts[0] == domain && ReadRows(parts[1..]) == table
  {
    hide Split, Join, TableNulFree;
    RowPartsFree(table);
    SplitJoin([domain] + RowParts(table), '\0');
    assert ([domain] + RowParts(table))[1..] == RowParts(table);
    RowsRead(table);
  }

  ghost predicate States(table: seq<Row>, name: string) { exists i :: 0 <= i < |table| && table[i].name == name }

  lemma {:induction false} StatesIff(table: seq<Row>, name: string)
    ensures HasRow(table, name) <==> States(table, name)
  {
    if States(table, name) {
      var i :| 0 <= i < |table| && table[i].name == name;
      assert table[i] in table;
    }
  }

  /** A table that states a window is digested as version 3, else one that states the requirement as version 2. */
  lemma {:induction false} TableFormIs(table: seq<Row>)
    ensures TableForm(table) == "verdifax.preanchor.v" +
        (if States(table, "anchoring_window_seconds") then "3"
         else if States(table, "complete_record_anchor") then "2" else "1")
  {
    hide States, HasRow;
    StatesIff(table, "anchoring_window_seconds");
    StatesIff(table, "complete_record_anchor");
  }

  /** The scaffold flags' text reads back as the four flags, in this order. */
  lemma {:induction false} ScaffoldReads(s: Scaffold)
    ensures var parts := Split(ScaffoldText(s), '\0');
            && |parts| == 5 && parts[0] == "verdifax.scaffold.flags.v1"
            && s == Scaffold(parts[1] == "true", parts[2] == "true", parts[3] == "true", parts[4] == "true")
  {
    hide Split, Join;
    ScaffoldFree(s);
    SplitJoin([SCAFFOLD_DOMAIN] + ScaffoldFields(s), '\0');
  }

  // ----- Leaves -----

  /** The leaf form in the rows' own names. */
  ghost function FormNumber(r: Record): (n: nat)
    ensures 1 <= n <= 7 && n != 4
  {
    if States(r.preAnchor, "anchoring_window_seconds") then 7
    else if States(r.preAnchor, "complete_record_anchor") then 6
    else if r.preAnchor != [] || r.preAnchorDigest != "" then 5
    else if r.nrepSectionHash != "" || r.scaffoldFlagsHash != "" then 3
    else if r.inputNonce != 0 then 2
    else 1
  }

  lemma {:induction false} FormIs(r: Record)
    ensures FormOf(r) ==
            match FormNumber(r) case 1 => V1 case 2 => V2 case 3 => V3 case 5 => V5 case 6 => V6 case _ => V7
    ensures Domain(FormOf(r)) == "verdifax.ledger.input.v" + ["01234567"[FormNumber(r)]]
  {
    hide States, HasRow;
    StatesIff(r.preAnchor, "anchoring_window_seconds");
    StatesIff(r.preAnchor, "complete_record_anchor");
  }

  /** What a leaf of a form holds after its tag: identity, the nonce from version 2 on, then the form's own digests. */
  lemma {:induction false} LeafReads(H: Hash, r: Record)
    requires HexHash(H) && Undotted(r)
    ensures var text, n := LeafText(H, r), FormNumber(r);
            && |text| > 24 && text[..24] == "verdifax.ledger.input.v" + ["01234567"[n]]
            && Split(text[25..], '.') == [r.envelopeId, r.aerHash, r.bindingHash]
                + (if n == 1 then [] else [PrintInt(r.inputNonce)])
                + (if n == 3 then [H(SectionText(r.nrep)), H(ScaffoldText(r.scaffold))]
                   else if n > 3 then [H(TableText(TableForm(r.preAnchor), r.preAnchor))] else [])
  {
    hide Split, Join, FormOf, FormNumber, PrintInt, SectionText, ScaffoldText, TableText, HexHash, Undotted;
    FormIs(r);
    LeafFieldsFree(H, r);
    LeafFieldsCount(H, r);
    var fields := LeafFields(H, r);
    FieldsAre(H, r);
    SplitJoin(fields, '.');
    LeafTail(H, r);
    assert LeafText(H, r)[..24] == Domain(FormOf(r));
    assert LeafText(H, r)[25..] == Join(fields, '.');
  }

  lemma {:induction false} FieldsAre(H: Hash, r: Record)
    ensures var n := FormNumber(r);
            LeafFields(H, r) == [r.envelopeId, r.aerHash, r.bindingHash]
                + (if n == 1 then [] else [PrintInt(r.inputNonce)])
                + (if n == 3 then [H(SectionText(r.nrep)), H(ScaffoldText(r.scaffold))]
                   else if n > 3 then [H(TableText(TableForm(r.preAnchor), r.preAnchor))] else [])
  {
    hide PrintInt, SectionText, ScaffoldText, TableText, FormOf, FormNumber;
    FormIs(r);
  }

  lemma {:induction false} LeafTail(H: Hash, r: Record)
    ensures LeafText(H, r) == Domain(FormOf(r)) + ("." + Join(LeafFields(H, r), '.')) && |Domain(FormOf(r))| == 24
  {
    hide LeafFields, FormOf;
    LeafFieldsCount(H, r);
    assert ([Domain(FormOf(r))] + LeafFields(H, r))[1..] == LeafFields(H, r);
  }

  // ----- Matching and missing -----

  /** A record matches exactly when it claims a public-log leaf, lacks no input, and the leaf is that of its text. */
  lemma {:induction false} MatchIff(H: Hash, L: string -> string, r: Record)
    ensures LeafMatches(H, L, r) <==>
            && r.backend == "rekor" && r.envelopeId != "" && r.aerHash != "" && r.bindingHash != ""
            && r.leafHashHex != "" && H(LeafText(H, r)) == L(r.leafHashHex)
  {
    hide LeafText;
  }

  /** Each name stands for the input it is the name of. */
  lemma {:induction false} NamesAre(r: Record)
    ensures "envelope.envelope_id" in Names(r) <==> r.envelopeId == ""
    ensures "aer.seal.sealed_hash" in Names(r) <==> r.aerHash == ""
    ensures "zksp_binding.seal.sealed_hash" in Names(r) <==> r.bindingHash == ""
    ensures "rekor_anchor.leaf_hash" in Names(r) <==> r.leafHashHex == ""
  {
  }

  // ----- The requirement -----

  /** Demanded by the row of this name; met only by an anchor that is there, holds, and is logged when the run is. */
  lemma {:induction false} RequirementIs(r: Record, ba: BundleAnchor)
    ensures Demanded(r) <==> States(r.preAnchor, "complete_record_anchor")
    ensures Satisfied(r, ba) <==>
            && States(r.preAnchor, "complete_record_anchor") && ba.present && ba.matches
            && (ba.performed || r.backend != "rekor")
  {
    hide States, HasRow;
    StatesIff(r.preAnchor, "complete_record_anchor");
  }
}
