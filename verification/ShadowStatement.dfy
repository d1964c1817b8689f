/** The shadow statement of a translation: where SQLite puts the binds a caller
    makes on it. */
module ShadowStatement {
  import opened Common
  import opened Sql
  import opened Q = QuestionMarks
  import Numbering
  import Parameters
  import Translation
  import SqliteParams

  lemma NameAt(names: seq<Option<string>>, st: SqliteParams.Params, r: nat, i: nat) returns (p: SqliteParams.Param)
    requires SqliteParams.Sane(st) && Parameters.NamesOf(names, st, r)
    requires i < |names| && names[i].Some?
    ensures p in Numbering.Proper(st.names.Keys) && st.names[p] == i + 1 && names[i] == Some(p.name)
  {
    p :| p in st.names && !Numbering.Dollar(p) && st.names[p] == i + 1;
  }

  /** Names under one sigil each are recorded once each. */
  lemma NamesAreOwn(names: seq<Option<string>>, st: SqliteParams.Params, r: nat)
    requires SqliteParams.Sane(st) && Parameters.NamesOf(names, st, r)
    requires SqliteParams.OneSigilEach(Numbering.Proper(st.names.Keys))
    ensures OwnNames(names)
  {
    hide Parameters.NamesOf, SqliteParams.Sane;
    forall i, j | 0 <= i < j < |names| && names[i].Some?
      ensures names[i] != names[j]
    {
      if names[i] == names[j] {
        var p := NameAt(names, st, r, i);
        var q := NameAt(names, st, r, j);
      }
    }
  }

  lemma RowLength(a: nat, b: nat)
    ensures Row(0, a) == Row(0, b) <==> a == b
  {
    assert |Row(0, a)| == a && |Row(0, b)| == b;
  }

  /** The parameters of a translated statement's shadow take its slots in order:
      slot k of the shadow is slot k of the statement the caller wrote, for
      every slot the shim has a place for, and those are all of SQLite's exactly
      when some parameter the shim reserves a slot for holds the last. */
  lemma ShadowKeepsSlots(u: Update)
    requires SqliteParams.AllTokens(UpdateTokens(u))
    requires Numbering.Sound(Translation.Moves(u), Translation.StatementParams(u))
    requires forall i :: 0 <= i < |Translation.Translated(u).1| ==> Q.Identifier(Translation.Translated(u).1[i])
    ensures var shadow := Q.Tokens(Shadow(Translation.Translated(u).1));
      && SqliteParams.AllTokens(shadow)
      && var slots := SqliteParams.Slots(SqliteParams.NoParams, SqliteParams.ReadAll(shadow));
      && slots == Row(0, Translation.ReservedSlots(u))
      && (slots == Row(0, Translation.EndParams(u).largest) <==> Translation.Bindable(u))
  {
    var ps, none := Translation.StatementParams(u), SqliteParams.NoParams;
    var names, end := Translation.Translated(u).1, Translation.EndParams(u);
    SqliteParams.AfterSane(none, ps);
    assert none.names.Keys + SqliteParams.NamesIn(ps) == SqliteParams.NamesIn(ps);
    hide Q.Tokens, Shadow, Q.Identifier, Row, OwnNames;
    hide Translation.Translated, SqliteParams.Slots, SqliteParams.After, Parameters.NamesOf, Translation.Bindable;
    Translation.TranslationKeepsNames(u);
    NamesAreOwn(names, end, Translation.ReservedSlots(u));
    ShadowSlots(names);
    Translation.NamesReach(u);
    RowLength(Translation.ReservedSlots(u), end.largest);
  }

  /** SET a = $1 has a shadow without parameters. */
  lemma ShadowOfDollar()
    ensures var u := Translation.SetDollar();
      && SqliteParams.AllTokens(UpdateTokens(u)) && Translation.EndParams(u).largest == 1
      && Q.Tokens(Shadow(Translation.Translated(u).1)) == []
  {
    hide Q.Tokens, Shadow, Row, SqliteParams.Slots, SqliteParams.After, Translation.Translated, Translation.SetDollar;
    Translation.DollarIsNotBound();
    ShadowSlots([]);
  }
}
