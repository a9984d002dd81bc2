/** ui/dialogs.py: re-applying the corrections the editor accepted in the
    verification dialog, and saving the settings dialog. The dialogs' widgets
    are not modelled: the check boxes are a sequence of booleans, the answer
    to the confirmation window is a parameter, and the entries' contents are
    given as strings. */
module Dialogs {
  import opened Wrappers
  import opened Text
  import opened News
  import opened Settings

  // ---------------------------------------------------------------------
  // Corrections

  /** One proposed correction: its number (None when the key is missing),
      the text to find and the text to put in its place (a missing key
      reads as ""). */
  datatype Correction = Correction(numero: Option<string>, original: string, corregido: string)

  /** The text fields a correction may apply to, in the order they are
      tried. */
  datatype Field = Titulo | Entradilla | Contenido

  const FieldOrder: seq<Field> := [Titulo, Entradilla, Contenido]

  function Get(a: Article, f: Field): string {
    match f
    case Titulo => a.titulo
    case Entradilla => a.entradilla
    case Contenido => a.contenido
  }

  function Put(a: Article, f: Field, v: string): (r: Article)
    ensures Get(r, f) == v && r.etiquetas == a.etiquetas
    ensures forall g :: g != f ==> Get(r, g) == Get(a, g)
  {
    match f
    case Titulo => a.(titulo := v)
    case Entradilla => a.(entradilla := v)
    case Contenido => a.(contenido := v)
  }

  /** The first field, in the order titulo, entradilla, contenido, whose
      text contains `orig`. */
  function FirstFieldWith(a: Article, orig: string): (r: Option<Field>)
    ensures r.Some? ==> Contains(Get(a, r.value), orig)
    ensures r == Some(Entradilla) ==> !Contains(a.titulo, orig)
    ensures r == Some(Contenido) ==> !Contains(a.titulo, orig) && !Contains(a.entradilla, orig)
    ensures r.None? <==> forall f :: !Contains(Get(a, f), orig)
  {
    if Contains(a.titulo, orig) then Some(Titulo)
    else if Contains(a.entradilla, orig) then Some(Entradilla)
    else if Contains(a.contenido, orig) then Some(Contenido)
    else None
  }

  /** One accepted correction: skipped when either text is empty, otherwise
      the first occurrence of `original` in the first field containing it is
      replaced by `corregido`. */
  function ApplyCorrection(a: Article, c: Correction): (r: Article)
    ensures r.etiquetas == a.etiquetas
    ensures c.original == [] || c.corregido == [] ==> r == a
  {
    if c.original == [] || c.corregido == [] then a
    else match FirstFieldWith(a, c.original)
      case None => a
      case Some(f) => Put(a, f, ReplaceFirst(Get(a, f), c.original, c.corregido))
  }

  /** The accepted corrections applied one after another, in checklist
      order. */
  function ApplyAll(a: Article, cs: seq<Correction>): (r: Article)
    decreases |cs|
  {
    if cs == [] then a else ApplyCorrection(ApplyAll(a, cs[..|cs| - 1]), cs[|cs| - 1])
  }

  /** A correction changes at most one field, the first that contains its
      text, and there only the first occurrence; a text found nowhere
      changes nothing. */
  lemma ApplyCorrectionEffect(a: Article, c: Correction)
    requires c.original != [] && c.corregido != []
    ensures (forall f :: !Contains(Get(a, f), c.original)) ==> ApplyCorrection(a, c) == a
    ensures var r := ApplyCorrection(a, c);
            forall f :: Contains(Get(a, f), c.original) &&
                        (forall g :: g in FieldOrder[..Index(f)] ==> !Contains(Get(a, g), c.original)) ==>
              && Get(r, f) == ReplaceFirst(Get(a, f), c.original, c.corregido)
              && forall g :: g != f ==> Get(r, g) == Get(a, g)
  {
    var r := ApplyCorrection(a, c);
    forall f | Contains(Get(a, f), c.original) &&
               (forall g :: g in FieldOrder[..Index(f)] ==> !Contains(Get(a, g), c.original))
      ensures Get(r, f) == ReplaceFirst(Get(a, f), c.original, c.corregido)
      ensures forall g :: g != f ==> Get(r, g) == Get(a, g)
    {
      assert FieldOrder[..Index(f)] == match f case Titulo => [] case Entradilla => [Titulo] case Contenido => [Titulo, Entradilla];
      assert FirstFieldWith(a, c.original) == Some(f);
    }
  }

  /** The position of a field in the order they are tried. */
  function Index(f: Field): (k: nat)
    ensures k < |FieldOrder| && FieldOrder[k] == f
  {
    match f
    case Titulo => 0
    case Entradilla => 1
    case Contenido => 2
  }

  /** The tags are never touched, however many corrections apply. */
  lemma {:induction false} ApplyAllKeepsTags(a: Article, cs: seq<Correction>)
    ensures ApplyAll(a, cs).etiquetas == a.etiquetas
    decreases |cs|
  {
    if cs != [] {
      ApplyAllKeepsTags(a, cs[..|cs| - 1]);
    }
  }

  /** Corrections with an empty text on either side are skipped entirely. */
  lemma {:induction false} ApplyAllSkipsEmpty(a: Article, cs: seq<Correction>)
    requires forall k :: 0 <= k < |cs| ==> cs[k].original == [] || cs[k].corregido == []
    ensures ApplyAll(a, cs) == a
    decreases |cs|
  {
    if cs != [] {
      ApplyAllSkipsEmpty(a, cs[..|cs| - 1]);
    }
  }

  /** Applying a list then one more correction is applying the longer list. */
  lemma ApplyAllSnoc(a: Article, cs: seq<Correction>, c: Correction)
    ensures ApplyAll(a, cs + [c]) == ApplyCorrection(ApplyAll(a, cs), c)
  {
    assert (cs + [c])[..|cs|] == cs;
  }

  /** The accepted corrections, in checklist order. */
  function Accepted(cs: seq<Correction>, checks: seq<bool>): (r: seq<Correction>)
    requires |checks| == |cs|
    ensures |r| <= |cs|
    ensures forall c :: c in r ==> c in cs
    decreases |cs|
  {
    if cs == [] then []
    else (if checks[0] then [cs[0]] else []) + Accepted(cs[1..], checks[1..])
  }

  /** What one row of the checklist adds to the omitted numbers: nothing
      when ticked, its number when unticked, and a `KeyError` (None) when
      unticked without a number. */
  function OmittedOne(c: Correction, checked: bool): Option<seq<string>> {
    if checked then Some([])
    else if c.numero.Some? then Some([c.numero.value])
    else None
  }

  /** The numbers of the unticked corrections, in checklist order; None
      when an unticked correction has no number, where the source's
      `c["numero"]` raises. */
  function Omitted(cs: seq<Correction>, checks: seq<bool>): (r: Option<seq<string>>)
    requires |checks| == |cs|
    ensures r.Some? ==> |r.value| <= |cs|
    ensures r.None? <==> exists k :: 0 <= k < |cs| && !checks[k] && cs[k].numero.None?
    decreases |cs|
  {
    if cs == [] then Some([])
    else
      var head := OmittedOne(cs[0], checks[0]);
      var tail := Omitted(cs[1..], checks[1..]);
      assert (exists k :: 0 <= k < |cs| && !checks[k] && cs[k].numero.None?) <==>
             head.None? || exists k :: 0 <= k < |cs[1..]| && !checks[1..][k] && cs[1..][k].numero.None? by {
        if exists k :: 0 <= k < |cs| && !checks[k] && cs[k].numero.None? {
          var k :| 0 <= k < |cs| && !checks[k] && cs[k].numero.None?;
          if k > 0 {
            assert !checks[1..][k - 1] && cs[1..][k - 1].numero.None?;
          }
        }
        if exists k :: 0 <= k < |cs[1..]| && !checks[1..][k] && cs[1..][k].numero.None? {
          var k :| 0 <= k < |cs[1..]| && !checks[1..][k] && cs[1..][k].numero.None?;
          assert !checks[k + 1] && cs[k + 1].numero.None?;
        }
      }
      if head.Some? && tail.Some? then Some(head.value + tail.value) else None
  }

  /** A single row is accepted exactly when it is ticked. */
  lemma AcceptedOneRow(c: Correction, checked: bool)
    ensures Accepted([c], [checked]) == if checked then [c] else []
  {
    assert [c][1..] == [] && [checked][1..] == [];
  }

  /** A single row is omitted exactly when it is unticked. */
  lemma OmittedOneRow(c: Correction, checked: bool)
    ensures Omitted([c], [checked]) == OmittedOne(c, checked)
  {
    assert [c][1..] == [] && [checked][1..] == [];
    var head := OmittedOne(c, checked);
    if head.Some? {
      assert head.value + [] == head.value;
    }
  }

  /** The accepted corrections of a checklist split in two are those of the
      first part followed by those of the second. */
  lemma {:induction false} AcceptedAppend(cs1: seq<Correction>, ch1: seq<bool>,
                                          cs2: seq<Correction>, ch2: seq<bool>)
    requires |ch1| == |cs1| && |ch2| == |cs2|
    ensures Accepted(cs1 + cs2, ch1 + ch2) == Accepted(cs1, ch1) + Accepted(cs2, ch2)
    decreases |cs1|
  {
    if cs1 == [] {
      assert cs1 + cs2 == cs2 && ch1 + ch2 == ch2;
    } else {
      assert (cs1 + cs2)[1..] == cs1[1..] + cs2 && (ch1 + ch2)[1..] == ch1[1..] + ch2;
      assert (cs1 + cs2)[0] == cs1[0] && (ch1 + ch2)[0] == ch1[0];
      AcceptedAppend(cs1[1..], ch1[1..], cs2, ch2);
    }
  }

  /** The omitted numbers of a checklist split in two are those of the first
      part followed by those of the second; a missing number in either part
      raises for the whole. */
  lemma {:induction false} OmittedAppend(cs1: seq<Correction>, ch1: seq<bool>,
                                         cs2: seq<Correction>, ch2: seq<bool>)
    requires |ch1| == |cs1| && |ch2| == |cs2|
    ensures Omitted(cs1 + cs2, ch1 + ch2).Some? <==>
            Omitted(cs1, ch1).Some? && Omitted(cs2, ch2).Some?
    ensures Omitted(cs1 + cs2, ch1 + ch2).Some? ==>
            Omitted(cs1 + cs2, ch1 + ch2).value == Omitted(cs1, ch1).value + Omitted(cs2, ch2).value
    decreases |cs1|
  {
    if cs1 == [] {
      assert cs1 + cs2 == cs2 && ch1 + ch2 == ch2;
    } else {
      assert (cs1 + cs2)[1..] == cs1[1..] + cs2 && (ch1 + ch2)[1..] == ch1[1..] + ch2;
      assert (cs1 + cs2)[0] == cs1[0] && (ch1 + ch2)[0] == ch1[0];
      OmittedAppend(cs1[1..], ch1[1..], cs2, ch2);
    }
  }

  /** Every correction is either accepted or omitted. */
  lemma {:induction false} AcceptedPlusOmitted(cs: seq<Correction>, checks: seq<bool>)
    requires |checks| == |cs|
    requires Omitted(cs, checks).Some?
    ensures |Accepted(cs, checks)| + |Omitted(cs, checks).value| == |cs|
    decreases |cs|
  {
    if cs != [] {
      AcceptedPlusOmitted(cs[1..], checks[1..]);
    }
  }

  /** Nothing is omitted exactly when every box is checked, and then every
      correction is accepted. */
  lemma {:induction false} NothingOmitted(cs: seq<Correction>, checks: seq<bool>)
    requires |checks| == |cs|
    ensures Omitted(cs, checks) == Some([]) <==> forall k :: 0 <= k < |checks| ==> checks[k]
    ensures Omitted(cs, checks) == Some([]) ==> Accepted(cs, checks) == cs
    decreases |cs|
  {
    if cs != [] {
      NothingOmitted(cs[1..], checks[1..]);
      if Omitted(cs, checks) == Some([]) {
        assert checks[0];
      }
      assert forall k :: 1 <= k < |checks| ==> checks[k] == checks[1..][k - 1];
      if forall k :: 0 <= k < |checks| ==> checks[k] {
        assert forall k :: 0 <= k < |checks[1..]| ==> checks[1..][k];
      }
    }
  }

  /** With every box unchecked nothing is accepted, and the snapshot comes
      back as it was. */
  lemma {:induction false} NoneAccepted(cs: seq<Correction>, checks: seq<bool>, a: Article)
    requires |checks| == |cs|
    requires forall k :: 0 <= k < |checks| ==> !checks[k]
    ensures Accepted(cs, checks) == []
    ensures ApplyAll(a, Accepted(cs, checks)) == a
    decreases |cs|
  {
    if cs != [] {
      NoneAccepted(cs[1..], checks[1..], a);
    }
  }

  /** What the apply button hands to its callback: None when collecting
      the omitted numbers raises; the snapshot with the accepted
      corrections re-applied when some are omitted and a snapshot exists;
      the backend's corrected text otherwise. */
  function DialogResult(cs: seq<Correction>, checks: seq<bool>, corrected: Article,
                        original: Option<Article>): (r: Option<Article>)
    requires |checks| == |cs|
    ensures r.None? <==> Omitted(cs, checks).None?
    ensures r.Some? && Omitted(cs, checks).value != [] && original.Some? ==>
              r.value.etiquetas == original.value.etiquetas
    ensures r.Some? && Omitted(cs, checks).value != [] && original.Some? ==>
              r.value == ApplyAll(original.value, Accepted(cs, checks))
    ensures r.Some? && (Omitted(cs, checks).value == [] || original.None?) ==> r.value == corrected
  {
    match Omitted(cs, checks)
    case None => None
    case Some(omitted) =>
      if omitted != [] && original.Some? then
        ApplyAllKeepsTags(original.value, Accepted(cs, checks));
        Some(ApplyAll(original.value, Accepted(cs, checks)))
      else Some(corrected)
  }

  /** When no box is unchecked, or no snapshot was given, the backend's
      corrected text goes through unchanged. */
  lemma CorrectedTextPassesThrough(cs: seq<Correction>, checks: seq<bool>, corrected: Article,
                                   original: Option<Article>)
    requires |checks| == |cs|
    requires (forall k :: 0 <= k < |checks| ==> checks[k]) || (original.None? && Omitted(cs, checks).Some?)
    ensures DialogResult(cs, checks, corrected, original) == Some(corrected)
  {
    NothingOmitted(cs, checks);
  }

  /** The verification dialog: the proposed corrections with a check box
      each, the backend's corrected text and the snapshot of the draft it
      was computed from. */
  class VerificationDialog {
    const correcciones: seq<Correction>
    const textoCorregido: Article
    /** `texto_original`, None when it was not given or empty. */
    const textoOriginal: Option<Article>
    var checks: seq<bool>
    /** What the callback has been called with. */
    var callbackResults: seq<Article>
    var closed: bool

    predicate Valid()
      reads this
    {
      |checks| == |correcciones|
    }

    /** Every correction starts checked. */
    constructor (correcciones: seq<Correction>, textoCorregido: Article, textoOriginal: Option<Article>)
      ensures this.correcciones == correcciones && this.textoCorregido == textoCorregido
      ensures this.textoOriginal == textoOriginal
      ensures Valid() && forall k :: 0 <= k < |checks| ==> checks[k]
      ensures callbackResults == [] && !closed
    {
      this.correcciones := correcciones;
      this.textoCorregido := textoCorregido;
      this.textoOriginal := textoOriginal;
      checks := seq(|correcciones|, _ => true);
      callbackResults := [];
      closed := false;
    }

    /** The editor ticks or clears one box. */
    method SetChecked(k: nat, value: bool)
      requires Valid() && k < |checks|
      modifies this
      ensures Valid() && checks == old(checks)[k := value]
      ensures callbackResults == old(callbackResults) && closed == old(closed)
    {
      checks := checks[k := value];
    }

    /** `_aplicar`: `confirmed` is the answer to the confirmation shown
        when some corrections are unchecked. A refusal returns to the
        dialog without calling back. */
    method Apply(confirmed: bool)
      requires Valid()
      modifies this
      ensures Valid() && checks == old(checks)
      ensures var omitted := Omitted(correcciones, checks);
              if omitted.None? || (omitted.value != [] && !confirmed) then
                callbackResults == old(callbackResults) && closed == old(closed)
              else
                callbackResults == old(callbackResults) +
                                   [DialogResult(correcciones, checks, textoCorregido, textoOriginal).value]
                && closed
    {
      var omitted := Omitted(correcciones, checks);
      var accepted := Accepted(correcciones, checks);
      if omitted.None? {
        return;
      }
      if omitted.value != [] && !confirmed {
        return;
      }
      if omitted.value != [] && textoOriginal.Some? {
        var base := textoOriginal.value;
        var resultado := Article(base.titulo, base.entradilla, base.contenido, base.etiquetas);
        var i := 0;
        while i < |accepted|
          invariant 0 <= i <= |accepted|
          invariant resultado == ApplyAll(base, accepted[..i])
          invariant unchanged(this)
        {
          ApplyAllSnoc(base, accepted[..i], accepted[i]);
          assert accepted[..i + 1] == accepted[..i] + [accepted[i]];
          resultado := ApplyOne(resultado, accepted[i]);
          i := i + 1;
        }
        assert accepted[..i] == accepted;
        callbackResults := callbackResults + [resultado];
      } else {
        callbackResults := callbackResults + [textoCorregido];
      }
      closed := true;
    }
  }

  /** The field loop stops at the first field containing the text (or runs
      out of fields), which is the choice `ApplyCorrection` makes. */
  lemma FirstFieldFound(a: Article, orig: string, j: nat)
    requires j <= |FieldOrder|
    requires forall k :: 0 <= k < j ==> !Contains(Get(a, FieldOrder[k]), orig)
    requires j < |FieldOrder| ==> Contains(Get(a, FieldOrder[j]), orig)
    ensures FirstFieldWith(a, orig) == if j < |FieldOrder| then Some(FieldOrder[j]) else None
  {
    assert FieldOrder[0] == Titulo && FieldOrder[1] == Entradilla && FieldOrder[2] == Contenido;
    if j >= 1 {
      assert !Contains(Get(a, FieldOrder[0]), orig);
    }
    if j >= 2 {
      assert !Contains(Get(a, FieldOrder[1]), orig);
    }
    if j >= 3 {
      assert !Contains(Get(a, FieldOrder[2]), orig);
    }
  }

  /** One accepted correction as the dialog applies it: a scan of the
      fields in order that replaces in the first one containing the text
      and stops there. */
  method ApplyOne(resultado: Article, corr: Correction) returns (r: Article)
    ensures r == ApplyCorrection(resultado, corr)
  {
    r := resultado;
    var orig := corr.original;
    var fixed := corr.corregido;
    if orig == [] || fixed == [] {
      return;
    }
    var j := 0;
    while j < |FieldOrder|
      invariant 0 <= j <= |FieldOrder|
      invariant forall k :: 0 <= k < j ==> !Contains(Get(resultado, FieldOrder[k]), orig)
      invariant r == resultado
    {
      var campo := FieldOrder[j];
      if Contains(Get(r, campo), orig) {
        FirstFieldFound(resultado, orig, j);
        r := Put(r, campo, ReplaceFirst(Get(r, campo), orig, fixed));
        return;
      }
      j := j + 1;
    }
    FirstFieldFound(resultado, orig, j);
  }

  // ---------------------------------------------------------------------
  // Settings

  /** The three values an editor tab holds, as its widgets return them. */
  datatype EditorValues = EditorValues(modelo: string, systemPrompt: string, userPromptTemplate: string)

  const ModelKey := "modelo"
  const SystemPromptKey := "system_prompt"
  const UserTemplateKey := "user_prompt_template"

  /** One editor's update of its prompt entry: the three keys are set to
      the stripped values, whatever else the entry held is kept. */
  function UpdateEntry(entry: map<string, string>, v: EditorValues): map<string, string> {
    entry[ModelKey := Strip(v.modelo)][SystemPromptKey := Strip(v.systemPrompt)]
         [UserTemplateKey := Strip(v.userPromptTemplate)]
  }

  /** The entry gains the three keys, holding the stripped values, and
      keeps every other key's value. */
  lemma UpdateEntrySpec(entry: map<string, string>, v: EditorValues)
    ensures UpdateEntry(entry, v).Keys == entry.Keys + {ModelKey, SystemPromptKey, UserTemplateKey}
    ensures var r := UpdateEntry(entry, v);
            r[ModelKey] == Strip(v.modelo) && r[SystemPromptKey] == Strip(v.systemPrompt)
            && r[UserTemplateKey] == Strip(v.userPromptTemplate)
    ensures forall k :: k in entry && k !in {ModelKey, SystemPromptKey, UserTemplateKey} ==>
              UpdateEntry(entry, v)[k] == entry[k]
  {
    assert ModelKey[0] == 'm' && SystemPromptKey[0] == 's' && UserTemplateKey[0] == 'u';
  }

  /** The prompts after every editor has written its entry, an absent
      entry being created empty first. */
  function SavePrompts(prompts: map<string, map<string, string>>, editors: seq<(string, EditorValues)>)
    : map<string, map<string, string>>
    decreases |editors|
  {
    if editors == [] then prompts
    else
      var last := editors[|editors| - 1];
      var before := SavePrompts(prompts, editors[..|editors| - 1]);
      before[last.0 := UpdateEntry(if last.0 in before then before[last.0] else map[], last.1)]
  }

  /** Editor keys are distinct: they come from a dictionary. */
  predicate DistinctKeys(editors: seq<(string, EditorValues)>) {
    forall i, j :: 0 <= i < j < |editors| ==> editors[i].0 != editors[j].0
  }

  /** The keys of the editors. */
  function EditorKeys(editors: seq<(string, EditorValues)>): (r: set<string>)
    ensures forall i :: 0 <= i < |editors| ==> editors[i].0 in r
    ensures forall k :: k in r ==> exists i :: 0 <= i < |editors| && editors[i].0 == k
    decreases |editors|
  {
    if editors == [] then {}
    else
      var init := editors[..|editors| - 1];
      var r := EditorKeys(init) + {editors[|editors| - 1].0};
      assert forall i :: 0 <= i < |init| ==> init[i] == editors[i];
      r
  }

  /** Saving creates exactly the editors' entries that were missing. */
  lemma {:induction false} SavePromptsKeys(prompts: map<string, map<string, string>>,
                                           editors: seq<(string, EditorValues)>)
    ensures SavePrompts(prompts, editors).Keys == prompts.Keys + EditorKeys(editors)
    decreases |editors|
  {
    if editors != [] {
      SavePromptsKeys(prompts, editors[..|editors| - 1]);
    }
  }

  /** Entries no editor shows are kept as they were. */
  lemma {:induction false} SavePromptsKeepsOthers(prompts: map<string, map<string, string>>,
                                                  editors: seq<(string, EditorValues)>, k: string)
    requires k in prompts && k !in EditorKeys(editors)
    ensures k in SavePrompts(prompts, editors) && SavePrompts(prompts, editors)[k] == prompts[k]
    decreases |editors|
  {
    if editors != [] {
      SavePromptsKeepsOthers(prompts, editors[..|editors| - 1], k);
    }
  }

  /** The last editor's entry holds its values on top of what the entry
      held before saving, when no earlier editor has the same key. */
  lemma SavePromptsSetsLast(prompts: map<string, map<string, string>>,
                            editors: seq<(string, EditorValues)>)
    requires editors != []
    requires forall j :: 0 <= j < |editors| - 1 ==> editors[j].0 != editors[|editors| - 1].0
    ensures var last := editors[|editors| - 1];
            last.0 in SavePrompts(prompts, editors) &&
            SavePrompts(prompts, editors)[last.0] ==
              UpdateEntry(if last.0 in prompts then prompts[last.0] else map[], last.1)
  {
    var n := |editors| - 1;
    var init := editors[..n];
    var key := editors[n].0;
    assert key !in EditorKeys(init) by {
      assert forall j :: 0 <= j < |init| ==> init[j] == editors[j];
    }
    SavePromptsKeys(prompts, init);
    if key in prompts {
      SavePromptsKeepsOthers(prompts, init, key);
    }
  }

  /** An editor whose key no other editor shares ends up holding its three
      stripped values on top of what its entry held before. */
  lemma {:induction false} SavePromptsSetsUnshared(prompts: map<string, map<string, string>>,
                                                   editors: seq<(string, EditorValues)>, i: nat)
    requires i < |editors|
    requires forall j :: 0 <= j < |editors| && j != i ==> editors[j].0 != editors[i].0
    ensures var key := editors[i].0;
            key in SavePrompts(prompts, editors) &&
            SavePrompts(prompts, editors)[key] ==
              UpdateEntry(if key in prompts then prompts[key] else map[], editors[i].1)
    decreases |editors|
  {
    var n := |editors| - 1;
    if i < n {
      var init := editors[..n];
      assert init[i] == editors[i];
      forall j | 0 <= j < |init| && j != i
        ensures init[j].0 != init[i].0
      {
        assert init[j] == editors[j];
      }
      SavePromptsSetsUnshared(prompts, init, i);
      assert editors[n].0 != editors[i].0;
      SavePromptsOtherKey(prompts, editors, editors[i].0);
    } else {
      SavePromptsSetsLast(prompts, editors);
    }
  }

  /** Each editor's entry holds its three stripped values on top of what
      the entry held before. */
  lemma SavePromptsSetsEntry(prompts: map<string, map<string, string>>,
                             editors: seq<(string, EditorValues)>, i: nat)
    requires DistinctKeys(editors) && i < |editors|
    ensures var key := editors[i].0;
            key in SavePrompts(prompts, editors) &&
            SavePrompts(prompts, editors)[key] ==
              UpdateEntry(if key in prompts then prompts[key] else map[], editors[i].1)
  {
    SavePromptsSetsUnshared(prompts, editors, i);
  }

  /** The last editor's write leaves every other entry as the earlier
      editors left it. */
  lemma SavePromptsOtherKey(prompts: map<string, map<string, string>>,
                            editors: seq<(string, EditorValues)>, k: string)
    requires editors != [] && k != editors[|editors| - 1].0
    requires k in SavePrompts(prompts, editors[..|editors| - 1])
    ensures k in SavePrompts(prompts, editors)
    ensures SavePrompts(prompts, editors)[k] == SavePrompts(prompts, editors[..|editors| - 1])[k]
  {
  }

  /** One more editor's write, on top of the earlier ones. */
  lemma SavePromptsSnoc(prompts: map<string, map<string, string>>, editors: seq<(string, EditorValues)>, i: nat)
    requires i < |editors|
    ensures var before := SavePrompts(prompts, editors[..i]);
            var key := editors[i].0;
            SavePrompts(prompts, editors[..i + 1])
              == before[key := UpdateEntry(if key in before then before[key] else map[], editors[i].1)]
  {
    assert editors[..i + 1][..i] == editors[..i];
  }

  /** The editor loop of `_save`: each editor's entry is created when
      missing and its three values written, stripped. */
  method WriteEditors(prompts: map<string, map<string, string>>, editors: seq<(string, EditorValues)>)
    returns (r: map<string, map<string, string>>)
    ensures r == SavePrompts(prompts, editors)
  {
    r := prompts;
    var i := 0;
    while i < |editors|
      invariant 0 <= i <= |editors|
      invariant r == SavePrompts(prompts, editors[..i])
    {
      var (key, v) := editors[i];
      var entry: map<string, string> := if key in r then r[key] else map[];
      SavePromptsSnoc(prompts, editors, i);
      r := r[key := UpdateEntry(entry, v)];
      i := i + 1;
    }
    assert editors[..i] == editors;
  }

  /** The settings dialog over the current settings and prompts, with
      what has been written to the two files. */
  class SettingsDialog {
    var settings: SettingsRecord
    var prompts: map<string, map<string, string>>
    var savedSettings: Option<SettingsRecord>
    var savedPrompts: Option<map<string, map<string, string>>>
    const hasOnSave: bool
    var onSaveCalls: nat
    var closed: bool

    constructor (settings: SettingsRecord, prompts: map<string, map<string, string>>, hasOnSave: bool)
      ensures this.settings == settings && this.prompts == prompts && this.hasOnSave == hasOnSave
      ensures savedSettings.None? && savedPrompts.None? && onSaveCalls == 0 && !closed
    {
      this.settings := settings;
      this.prompts := prompts;
      this.hasOnSave := hasOnSave;
      savedSettings := None;
      savedPrompts := None;
      onSaveCalls := 0;
      closed := false;
    }

    /** `_save`: the folder entry stripped, each editor's values written
      into its prompt entry, both records saved, the save callback run and
      the dialog closed. */
    method Save(folderEntry: string, editors: seq<(string, EditorValues)>)
      modifies this
      ensures settings == old(settings)[WatchFolderKey := Strip(folderEntry)]
      ensures prompts == SavePrompts(old(prompts), editors)
      ensures savedSettings == Some(settings) && savedPrompts == Some(prompts)
      ensures onSaveCalls == old(onSaveCalls) + (if hasOnSave then 1 else 0)
      ensures closed
    {
      settings := settings[WatchFolderKey := Strip(folderEntry)];
      savedSettings := Some(settings);
      prompts := WriteEditors(prompts, editors);
      savedPrompts := Some(prompts);
      if hasOnSave {
        onSaveCalls := onSaveCalls + 1;
      }
      closed := true;
    }
  }
}
