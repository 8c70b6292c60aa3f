/**
 Whether a week may be closed: it must have no validation errors, and every warning must be
 acknowledged by match, code and field. What is written is one acknowledgment per warning.
 */
module CloseChecks {
  import opened Prelude

  /** A message of the week's validation. */
  datatype Finding = Finding(isError: bool, matchID: Option<int>, code: string, field: string)

  datatype AckKey = AckKey(matchID: int, code: string, field: string)

  datatype Ack = Ack(key: AckKey, notes: string)

  datatype CloseError = DraftSeason | HasErrors | Unacknowledged(findings: seq<Finding>)

  function KeyOf(f: Finding): AckKey {
    AckKey(if f.matchID.Some? then f.matchID.value else 0, f.code, f.field)
  }

  function Warnings(findings: seq<Finding>): seq<Finding> {
    if findings == [] then []
    else
      var f := findings[|findings| - 1];
      Warnings(findings[..|findings| - 1]) + if f.isError then [] else [f]
  }

  /** The notes sent for a finding; of several acknowledgments the last counts. */
  function NotesFor(acks: seq<Ack>, key: AckKey): Option<string> {
    if acks == [] then None
    else if acks[|acks| - 1].key == key then Some(acks[|acks| - 1].notes)
    else NotesFor(acks[..|acks| - 1], key)
  }

  function Missing(warnings: seq<Finding>, acks: seq<Ack>): seq<Finding> {
    if warnings == [] then []
    else
      var f := warnings[|warnings| - 1];
      Missing(warnings[..|warnings| - 1], acks) + if NotesFor(acks, KeyOf(f)).None? then [f] else []
  }

  function Written(warnings: seq<Finding>, acks: seq<Ack>): (written: seq<Ack>)
    ensures |written| == |warnings|
  {
    seq(|warnings|, i requires 0 <= i < |warnings| =>
      var notes := NotesFor(acks, KeyOf(warnings[i]));
      Ack(KeyOf(warnings[i]), if notes.Some? then notes.value else ""))
  }

  predicate AnyError(findings: seq<Finding>) {
    exists i :: 0 <= i < |findings| && findings[i].isError
  }

  function CloseCheck(draft: bool, findings: seq<Finding>, acks: seq<Ack>): Result<seq<Ack>, CloseError> {
    if draft then Err(DraftSeason)
    else if AnyError(findings) then Err(HasErrors)
    else if Missing(Warnings(findings), acks) != [] then Err(Unacknowledged(Missing(Warnings(findings), acks)))
    else Ok(Written(Warnings(findings), acks))
  }

  // ---- The loops -----------------------------------------------------------------------------

  function NotesIn(notes: map<AckKey, string>, key: AckKey): Option<string> {
    if key in notes then Some(notes[key]) else None
  }

  method AckSet(acks: seq<Ack>) returns (notes: map<AckKey, string>)
    ensures forall key :: NotesIn(notes, key) == NotesFor(acks, key)
  {
    notes := map[];
    for i := 0 to |acks|
      invariant forall key :: NotesIn(notes, key) == NotesFor(acks[..i], key)
    {
      assert acks[..i + 1][..i] == acks[..i];
      notes := notes[acks[i].key := acks[i].notes];
    }
    assert acks[..|acks|] == acks;
  }

  method SelectWarnings(findings: seq<Finding>) returns (warnings: seq<Finding>, anyError: bool)
    ensures warnings == Warnings(findings) && anyError == AnyError(findings)
  {
    warnings, anyError := [], false;
    for i := 0 to |findings|
      invariant warnings == Warnings(findings[..i])
      invariant anyError <==> exists j :: 0 <= j < i && findings[j].isError
    {
      assert findings[..i + 1][..i] == findings[..i];
      if findings[i].isError {
        anyError := true;
      } else {
        warnings := warnings + [findings[i]];
      }
    }
    assert findings[..|findings|] == findings;
  }

  method FindMissing(warnings: seq<Finding>, notes: map<AckKey, string>, ghost acks: seq<Ack>) returns (missing: seq<Finding>)
    requires forall key :: NotesIn(notes, key) == NotesFor(acks, key)
    ensures missing == Missing(warnings, acks)
  {
    hide NotesFor, KeyOf;
    missing := [];
    for i := 0 to |warnings|
      invariant missing == Missing(warnings[..i], acks)
    {
      assert warnings[..i + 1][..i] == warnings[..i];
      assert NotesIn(notes, KeyOf(warnings[i])) == NotesFor(acks, KeyOf(warnings[i]));
      if KeyOf(warnings[i]) !in notes {
        missing := missing + [warnings[i]];
      }
    }
    assert warnings[..|warnings|] == warnings;
  }

  method AcksToWrite(warnings: seq<Finding>, notes: map<AckKey, string>, ghost acks: seq<Ack>) returns (written: seq<Ack>)
    requires forall key :: NotesIn(notes, key) == NotesFor(acks, key)
    ensures written == Written(warnings, acks)
  {
    hide NotesFor, KeyOf;
    written := [];
    for i := 0 to |warnings|
      invariant |written| == i && forall j :: 0 <= j < i ==> written[j] == Written(warnings, acks)[j]
    {
      var key := KeyOf(warnings[i]);
      assert NotesIn(notes, key) == NotesFor(acks, key);
      written := written + [Ack(key, if key in notes then notes[key] else "")];
    }
  }

  method CheckClose(draft: bool, findings: seq<Finding>, acks: seq<Ack>) returns (r: Result<seq<Ack>, CloseError>)
    ensures r == CloseCheck(draft, findings, acks)
  {
    hide Warnings, AnyError, Missing, Written, NotesFor, NotesIn;
    if draft {
      return Err(DraftSeason);
    }
    var warnings, anyError := SelectWarnings(findings);
    if anyError {
      return Err(HasErrors);
    }
    var ackSet := AckSet(acks);
    var missing := FindMissing(warnings, ackSet, acks);
    if |missing| > 0 {
      return Err(Unacknowledged(missing));
    }
    var written := AcksToWrite(warnings, ackSet, acks);
    return Ok(written);
  }

  // ---- What it amounts to -----------------------------------------------------------------------

  predicate Acknowledged(acks: seq<Ack>, key: AckKey) {
    exists i :: 0 <= i < |acks| && acks[i].key == key
  }

  /** Of the acknowledgments sent for a key, the last. */
  ghost predicate IsLastFor(ack: Ack, key: AckKey, acks: seq<Ack>) {
    exists i :: 0 <= i < |acks| && acks[i] == ack && ack.key == key && forall j :: i < j < |acks| ==> acks[j].key != key
  }

  lemma {:induction false} NotesWhenAcknowledged(acks: seq<Ack>, key: AckKey)
    ensures NotesFor(acks, key).Some? <==> Acknowledged(acks, key)
    ensures NotesFor(acks, key).Some? ==> IsLastFor(Ack(key, NotesFor(acks, key).value), key, acks)
  {
    if acks != [] {
      var n := |acks| - 1;
      NotesWhenAcknowledged(acks[..n], key);
      if acks[n].key == key {
        assert acks[n] == Ack(key, acks[n].notes);
      } else if NotesFor(acks[..n], key).Some? {
        LastForStays(Ack(key, NotesFor(acks[..n], key).value), key, acks);
      }
      if Acknowledged(acks[..n], key) {
        var i :| 0 <= i < n && acks[..n][i].key == key;
        assert acks[i].key == key;
      }
    }
  }

  lemma LastForStays(ack: Ack, key: AckKey, acks: seq<Ack>)
    requires acks != [] && acks[|acks| - 1].key != key && IsLastFor(ack, key, acks[..|acks| - 1])
    ensures IsLastFor(ack, key, acks)
  {
    var n := |acks| - 1;
    var i :| 0 <= i < n && acks[..n][i] == ack && ack.key == key && forall j :: i < j < n ==> acks[..n][j].key != key;
    forall j | i < j < |acks|
      ensures acks[j].key != key
    {
      assert j < n ==> acks[..n][j] == acks[j];
    }
    assert acks[i] == ack;
  }

  lemma {:induction false} NothingMissing(warnings: seq<Finding>, acks: seq<Ack>)
    ensures Missing(warnings, acks) == [] <==> forall i :: 0 <= i < |warnings| ==> NotesFor(acks, KeyOf(warnings[i])).Some?
  {
    hide NotesFor;
    if warnings != [] {
      var n := |warnings| - 1;
      NothingMissing(warnings[..n], acks);
      assert forall i :: 0 <= i < n ==> warnings[..n][i] == warnings[i];
    }
  }

  lemma {:induction false} WarningsAre(findings: seq<Finding>)
    ensures forall f :: f in Warnings(findings) <==> f in findings && !f.isError
  {
    if findings != [] {
      var n := |findings| - 1;
      WarningsAre(findings[..n]);
      assert findings == findings[..n] + [findings[n]];
    }
  }

  /**
   Main result: a week may be closed exactly when its season is no draft and every finding is a
   warning that is acknowledged; and then what is written for each is the last acknowledgment sent for it.
   */
  lemma ClosesExactlyWhen(draft: bool, findings: seq<Finding>, acks: seq<Ack>)
    ensures CloseCheck(draft, findings, acks).Ok? <==>
            !draft && forall f :: f in findings ==> !f.isError && Acknowledged(acks, KeyOf(f))
    ensures CloseCheck(draft, findings, acks).Ok? ==>
              && |CloseCheck(draft, findings, acks).value| == |findings|
              && forall i :: 0 <= i < |findings| ==>
                   IsLastFor(CloseCheck(draft, findings, acks).value[i], KeyOf(findings[i]), acks)
  {
    hide *;
    var warnings := Warnings(findings);
    WarningsAre(findings);
    AllAcknowledged(warnings, acks);
    CheckIs(draft, findings, acks);
    AnyErrorIs(findings);
    if CloseCheck(draft, findings, acks).Ok? {
      OnlyWarnings(findings);
      forall i | 0 <= i < |findings|
        ensures IsLastFor(Written(findings, acks)[i], KeyOf(findings[i]), acks)
      {
        assert findings[i] in findings;
        WrittenWasSent(findings, acks, i);
      }
    }
  }

  lemma CheckIs(draft: bool, findings: seq<Finding>, acks: seq<Ack>)
    ensures CloseCheck(draft, findings, acks).Ok? <==> !draft && !AnyError(findings) && Missing(Warnings(findings), acks) == []
    ensures CloseCheck(draft, findings, acks).Ok? ==> CloseCheck(draft, findings, acks).value == Written(Warnings(findings), acks)
  {
    hide AnyError, Missing, Warnings, Written;
  }

  lemma AnyErrorIs(findings: seq<Finding>)
    ensures AnyError(findings) <==> exists f :: f in findings && f.isError
  {
    if AnyError(findings) {
      var i :| 0 <= i < |findings| && findings[i].isError;
      assert findings[i] in findings;
    }
  }

  lemma AllAcknowledged(warnings: seq<Finding>, acks: seq<Ack>)
    ensures Missing(warnings, acks) == [] <==> forall f :: f in warnings ==> Acknowledged(acks, KeyOf(f))
  {
    NothingMissing(warnings, acks);
    hide NotesFor, Acknowledged, Missing, KeyOf;
    forall i | 0 <= i < |warnings|
      ensures NotesFor(acks, KeyOf(warnings[i])).Some? <==> Acknowledged(acks, KeyOf(warnings[i]))
    {
      NotesWhenAcknowledged(acks, KeyOf(warnings[i]));
    }
    assert forall i :: 0 <= i < |warnings| ==> warnings[i] in warnings;
  }

  lemma WrittenWasSent(warnings: seq<Finding>, acks: seq<Ack>, i: nat)
    requires i < |warnings| && Acknowledged(acks, KeyOf(warnings[i]))
    ensures IsLastFor(Written(warnings, acks)[i], KeyOf(warnings[i]), acks)
  {
    NotesWhenAcknowledged(acks, KeyOf(warnings[i]));
    hide NotesFor, Acknowledged, KeyOf, IsLastFor;
  }

  lemma {:induction false} OnlyWarnings(findings: seq<Finding>)
    requires !AnyError(findings)
    ensures Warnings(findings) == findings
  {
    if findings != [] {
      OnlyWarnings(findings[..|findings| - 1]);
    }
  }
}
