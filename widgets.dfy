/** ui/widgets.py: the state behind the toggle switch, the step indicator,
    the choice of icon font, and the tag stack of the HTML preview. Drawing
    on the canvas is not modelled; what is drawn depends only on the state
    kept here. */
module Widgets {
  import opened Wrappers
  import opened Text

  // ---------------------------------------------------------------------
  // ToggleSwitch

  /** A switch whose command, when one was given, is called with the new
      state after every click. */
  class ToggleSwitch {
    var on: bool
    const hasCommand: bool
    /** The values the command has been called with, oldest first. */
    var commandCalls: seq<bool>

    constructor (hasCommand: bool, initial: bool)
      ensures this.hasCommand == hasCommand && on == initial && commandCalls == []
    {
      this.hasCommand := hasCommand;
      on := initial;
      commandCalls := [];
    }

    /** `is_on`. */
    function IsOn(): bool
      reads this
    {
      on
    }

    /** `_toggle`: a click flips the state and passes the new one on. */
    method Toggle()
      modifies this
      ensures on == !old(on)
      ensures commandCalls == old(commandCalls) + (if hasCommand then [on] else [])
    {
      on := !on;
      if hasCommand {
        commandCalls := commandCalls + [on];
      }
    }

    /** `set(val)`: assigns the state; the command is not called. */
    method Set(val: bool)
      modifies this
      ensures on == val && commandCalls == old(commandCalls)
    {
      on := val;
    }
  }

  /** Two clicks give the switch back its state, and the command has seen
      both values in turn. */
  method ToggleTwiceRestores(t: ToggleSwitch)
    modifies t
    ensures t.on == old(t.on)
    ensures t.commandCalls == old(t.commandCalls) + (if t.hasCommand then [!old(t.on), old(t.on)] else [])
  {
    t.Toggle();
    t.Toggle();
  }

  // ---------------------------------------------------------------------
  // Icon font selection (`_detect_fa_font`)

  /** The preferred families, best first, as the search looks them up:
      lower-cased ("Font Awesome 6 Free Solid", "Font Awesome 5 Free Solid",
      "Font Awesome 6 Free", "Font Awesome 5 Free"). */
  const PriorityKeys: seq<string> := ["font awesome 6 free solid", "font awesome 5 free solid",
                                      "font awesome 6 free", "font awesome 5 free"]

  /** `{f.lower(): f for f in families}.get(key)`: the last family whose
      lower-cased name is `key`. */
  function ByLower(families: seq<string>, key: string): (r: Option<string>)
    ensures r.Some? ==> r.value in families && Lower(r.value) == key
    ensures r.None? ==> forall f :: f in families ==> Lower(f) != key
  {
    if families == [] then None
    else
      var last := families[|families| - 1];
      if Lower(last) == key then Some(last)
      else
        var r := ByLower(families[..|families| - 1], key);
        assert forall f :: f in families ==> f in families[..|families| - 1] || f == last;
        r
  }

  /** The dictionary keeps the last spelling listed: when `families[k]` is
      the last entry lower-casing to `key`, the lookup gives exactly it. */
  lemma {:induction false} ByLowerIsLast(families: seq<string>, key: string, k: nat)
    requires k < |families| && Lower(families[k]) == key
    requires forall j :: k < j < |families| ==> Lower(families[j]) != key
    ensures ByLower(families, key) == Some(families[k])
    decreases |families|
  {
    if k < |families| - 1 {
      var init := families[..|families| - 1];
      assert init[k] == families[k];
      ByLowerIsLast(init, key, k);
    }
  }

  /** The search loop over the preferred names: the match for the first
      key found, if its name is not empty. */
  function PriorityMatch(families: seq<string>, keys: seq<string>): (r: Option<string>)
    ensures r.Some? ==> exists i :: 0 <= i < |keys| && ByLower(families, keys[i]) == r
  {
    if keys == [] then None
    else
      var m := ByLower(families, keys[0]);
      if m.Some? && m.value != [] then m
      else
        var r := PriorityMatch(families, keys[1..]);
        assert r.Some? ==> exists i :: 1 <= i < |keys| && ByLower(families, keys[i]) == r by {
          if r.Some? {
            var i :| 0 <= i < |keys[1..]| && ByLower(families, keys[1..][i]) == r;
            assert keys[1..][i] == keys[i + 1];
          }
        }
        r
  }

  /** An icon-font family: its lower-cased name contains "font awesome". */
  predicate IsFontAwesome(f: string) {
    Contains(Lower(f), "font awesome")
  }

  predicate IsSolid(f: string) {
    Contains(Lower(f), "solid")
  }

  /** The fallback candidates, in their original order. */
  function Candidates(families: seq<string>): (r: seq<string>)
    ensures forall f :: f in r <==> f in families && IsFontAwesome(f)
  {
    if families == [] then []
    else (if IsFontAwesome(families[0]) then [families[0]] else []) + Candidates(families[1..])
  }

  /** Python's `a <= b` on strings: code-point lexicographic order. */
  predicate LexLe(a: string, b: string) {
    a == [] || (b != [] && (a[0] < b[0] || (a[0] == b[0] && LexLe(a[1..], b[1..]))))
  }

  lemma {:induction false} LexLeTotal(a: string, b: string)
    ensures LexLe(a, b) || LexLe(b, a)
  {
    if a != [] && b != [] && a[0] == b[0] {
      LexLeTotal(a[1..], b[1..]);
    }
  }

  lemma {:induction false} LexLeTransitive(a: string, b: string, c: string)
    requires LexLe(a, b) && LexLe(b, c)
    ensures LexLe(a, c)
  {
    if a != [] && b != [] && c != [] && a[0] == b[0] && b[0] == c[0] {
      LexLeTransitive(a[1..], b[1..], c[1..]);
    }
  }

  lemma {:induction false} LexLeAntisymmetric(a: string, b: string)
    requires LexLe(a, b) && LexLe(b, a)
    ensures a == b
  {
    if a != [] && b != [] {
      LexLeAntisymmetric(a[1..], b[1..]);
      assert a == [a[0]] + a[1..] && b == [b[0]] + b[1..];
    }
  }

  /** The sort key `("solid" not in n.lower(), n)` compared as Python
      compares tuples: solid names first, then by name. */
  predicate KeyLe(a: string, b: string) {
    if IsSolid(a) != IsSolid(b) then IsSolid(a) else LexLe(a, b)
  }

  lemma KeyLeTotal(a: string, b: string)
    ensures KeyLe(a, b) || KeyLe(b, a)
  {
    LexLeTotal(a, b);
  }

  lemma KeyLeTransitive(a: string, b: string, c: string)
    requires KeyLe(a, b) && KeyLe(b, c)
    ensures KeyLe(a, c)
  {
    if IsSolid(a) == IsSolid(b) == IsSolid(c) {
      LexLeTransitive(a, b, c);
    }
  }

  /** `sorted(fs, key=...)[0]`: an element that is least under the key. */
  function Least(fs: seq<string>): (r: string)
    requires fs != []
    ensures r in fs
    ensures forall f :: f in fs ==> KeyLe(r, f)
  {
    if |fs| == 1 then
      LexLeReflexive(fs[0]);
      fs[0]
    else
      var m := Least(fs[1..]);
      KeyLeTotal(fs[0], m);
      if KeyLe(fs[0], m) then
        forall f | f in fs[1..] ensures KeyLe(fs[0], f) {
          KeyLeTransitive(fs[0], m, f);
        }
        LexLeReflexive(fs[0]);
        assert forall f :: f in fs ==> f == fs[0] || f in fs[1..];
        fs[0]
      else
        assert forall f :: f in fs ==> f == fs[0] || f in fs[1..];
        m
  }

  lemma {:induction false} LexLeReflexive(a: string)
    ensures LexLe(a, a)
  {
    if a != [] {
      LexLeReflexive(a[1..]);
    }
  }

  /** The least element under the key is unique, so the stable sort's
      first element is determined whatever the order of the families. */
  lemma LeastUnique(fs: seq<string>, x: string)
    requires fs != [] && x in fs
    requires forall f :: f in fs ==> KeyLe(x, f)
    ensures x == Least(fs)
  {
    var m := Least(fs);
    assert KeyLe(x, m) && KeyLe(m, x);
    LexLeAntisymmetric(x, m);
  }

  /** `_detect_fa_font()`: `families` is what the font list returned, or
      None when asking for it raised an error. */
  function DetectFaFont(families: Option<seq<string>>): (r: Option<string>)
    ensures families.None? ==> r.None?
    ensures families.Some? && PriorityMatch(families.value, PriorityKeys).Some? ==>
              r == PriorityMatch(families.value, PriorityKeys)
    ensures families.Some? && PriorityMatch(families.value, PriorityKeys).None? ==>
              (r.Some? <==> Candidates(families.value) != []) &&
              (r.Some? ==> r.value in Candidates(families.value) &&
                           forall f :: f in Candidates(families.value) ==> KeyLe(r.value, f))
  {
    match families
    case None => None
    case Some(fs) =>
      var m := PriorityMatch(fs, PriorityKeys);
      if m.Some? then m
      else
        var fallback := Candidates(fs);
        if fallback != [] then Some(Least(fallback)) else None
  }

  lemma PriorityKeysAreFontAwesome()
    ensures forall i :: 0 <= i < |PriorityKeys| ==> Contains(PriorityKeys[i], "font awesome")
  {
    forall i | 0 <= i < |PriorityKeys| ensures Contains(PriorityKeys[i], "font awesome") {
      assert PriorityKeys[i][..12] == "font awesome";
      ContainsWhenOccurs(PriorityKeys[i], "font awesome", 0);
    }
  }

  lemma PriorityMatchIsFontAwesome(fs: seq<string>, keys: seq<string>)
    requires forall i :: 0 <= i < |keys| ==> Contains(keys[i], "font awesome")
    ensures var m := PriorityMatch(fs, keys); m.Some? ==> m.value in fs && IsFontAwesome(m.value)
  {
    var m := PriorityMatch(fs, keys);
    if m.Some? {
      var i :| 0 <= i < |keys| && ByLower(fs, keys[i]) == m;
      assert Lower(m.value) == keys[i];
    }
  }

  /** The font chosen is one of the installed families and an icon font;
      there is none exactly when no family name contains "font awesome". */
  lemma DetectFaFontFound(families: Option<seq<string>>)
    ensures var r := DetectFaFont(families);
            r.Some? ==> families.Some? && r.value in families.value && IsFontAwesome(r.value)
    ensures DetectFaFont(families).None? <==>
            families.None? || forall f :: f in families.value ==> !IsFontAwesome(f)
  {
    if families.Some? {
      PriorityKeysAreFontAwesome();
      PriorityMatchIsFontAwesome(families.value, PriorityKeys);
    }
  }

  lemma {:induction false} PriorityMatchFirst(fs: seq<string>, keys: seq<string>, i: nat)
    requires i < |keys| && ByLower(fs, keys[i]).Some?
    requires forall j :: 0 <= j < i ==> ByLower(fs, keys[j]).None?
    requires forall j :: 0 <= j < |keys| ==> keys[j] != []
    ensures PriorityMatch(fs, keys) == ByLower(fs, keys[i])
  {
    if i > 0 {
      assert ByLower(fs, keys[0]).None?;
      PriorityMatchFirst(fs, keys[1..], i - 1);
    } else {
      assert |Lower(ByLower(fs, keys[0]).value)| > 0;
    }
  }

  /** When a preferred name is installed (in any letter case), the first
      such name in order of preference wins, in the spelling of its last
      listed variant. */
  lemma PriorityWins(fs: seq<string>, i: nat)
    requires i < |PriorityKeys| && ByLower(fs, PriorityKeys[i]).Some?
    requires forall j :: 0 <= j < i ==> ByLower(fs, PriorityKeys[j]).None?
    ensures DetectFaFont(Some(fs)) == ByLower(fs, PriorityKeys[i])
  {
    PriorityMatchFirst(fs, PriorityKeys, i);
  }

  /** Without a preferred name the fallback is the least icon-font family,
      solid variants first and then by name. */
  lemma FallbackIsLeast(fs: seq<string>)
    requires forall j :: 0 <= j < |PriorityKeys| ==> ByLower(fs, PriorityKeys[j]).None?
    requires exists f :: f in fs && IsFontAwesome(f)
    ensures var r := DetectFaFont(Some(fs));
            r.Some? && r.value in fs && IsFontAwesome(r.value) &&
            forall f :: f in fs && IsFontAwesome(f) ==> KeyLe(r.value, f)
  {
    var m := PriorityMatch(fs, PriorityKeys);
    if m.Some? {
      assert false;
    }
    var f :| f in fs && IsFontAwesome(f);
    assert f in Candidates(fs);
  }

  // ---------------------------------------------------------------------
  // StepIndicator

  /** The four steps: audio, processing, editing, publishing. */
  const StepCount := 4

  class StepIndicator {
    var current: int
    var completed: set<int>
    /** The icon font found when the indicator was built. */
    const faFontFamily: Option<string>

    /** `current` 0 and nothing completed: the state after building and
        after `reset`. */
    predicate AtStart()
      reads this
    {
      current == 0 && completed == {}
    }

    constructor (families: Option<seq<string>>)
      ensures AtStart() && faFontFamily == DetectFaFont(families)
    {
      current := 0;
      completed := {};
      faFontFamily := DetectFaFont(families);
    }

    /** `set_step(idx, completed)`: the completed set is replaced only when
        one is given. */
    method SetStep(idx: int, newCompleted: Option<seq<int>>)
      modifies this
      ensures current == idx
      ensures newCompleted.None? ==> completed == old(completed)
      ensures newCompleted.Some? ==> forall k :: k in completed <==> k in newCompleted.value
    {
      current := idx;
      if newCompleted.Some? {
        completed := set k | k in newCompleted.value;
      }
    }

    /** `complete_step(idx)`. */
    method CompleteStep(idx: int)
      modifies this
      ensures completed == old(completed) + {idx} && current == old(current)
    {
      completed := completed + {idx};
    }

    /** `reset()`. */
    method Reset()
      modifies this
      ensures AtStart()
    {
      current := 0;
      completed := {};
    }
  }

  // ---------------------------------------------------------------------
  // HTMLRenderer

  /** What the HTML tokeniser hands to the renderer's handlers. */
  datatype Token = StartTag(tag: string) | EndTag(tag: string) | Data(text: string)

  /** Text inserted into the preview with its display tags. */
  datatype Segment = Segment(text: string, tags: seq<string>)

  const ParagraphBreak := Segment("\n\n", [])

  /** The display tags for data under `stack`: "bold" when a strong or b
      element is open, "italic" when an em or i element is, bold first. */
  function DisplayTags(stack: seq<string>): (r: seq<string>)
    ensures "bold" in r <==> "strong" in stack || "b" in stack
    ensures "italic" in r <==> "em" in stack || "i" in stack
    ensures forall t :: t in r ==> t == "bold" || t == "italic"
    ensures |r| == 2 ==> r == ["bold", "italic"]
  {
    (if "strong" in stack || "b" in stack then ["bold"] else []) +
    (if "em" in stack || "i" in stack then ["italic"] else [])
  }

  /** The open-tag stack and the text written so far. */
  datatype RenderState = RenderState(stack: seq<string>, out: seq<Segment>)

  /** One handler call. */
  function Step(st: RenderState, tok: Token): (r: RenderState)
    ensures |st.out| <= |r.out| <= |st.out| + 1 && r.out[..|st.out|] == st.out
    ensures tok.Data? ==> r.stack == st.stack && r.out[|st.out|..] == [Segment(tok.text, DisplayTags(st.stack))]
    ensures tok.StartTag? ==> r.stack == st.stack + [tok.tag] && r.out == st.out
    ensures tok.EndTag? ==> st.stack == r.stack || st.stack == r.stack + [tok.tag]
  {
    match tok
    case StartTag(t) => RenderState(st.stack + [t], st.out)
    case EndTag(t) =>
      var out := if t == "p" then st.out + [ParagraphBreak] else st.out;
      if st.stack != [] && st.stack[|st.stack| - 1] == t then RenderState(st.stack[..|st.stack| - 1], out)
      else RenderState(st.stack, out)
    case Data(d) => RenderState(st.stack, st.out + [Segment(d, DisplayTags(st.stack))])
  }

  /** Feeding a token stream, handler call by handler call. */
  function Run(st: RenderState, toks: seq<Token>): (r: RenderState)
    ensures |r.out| <= |st.out| + |toks|
    ensures |r.stack| <= |st.stack| + |toks|
    decreases |toks|
  {
    if toks == [] then st else Step(Run(st, toks[..|toks| - 1]), toks[|toks| - 1])
  }

  /** Feeding one more token is one more handler call. */
  lemma RunSnoc(st: RenderState, toks: seq<Token>, i: nat)
    requires i < |toks|
    ensures Run(st, toks[..i + 1]) == Step(Run(st, toks[..i]), toks[i])
  {
    assert toks[..i + 1][..i] == toks[..i];
  }

  /** An end tag undoes its start tag on the stack. */
  lemma EndUndoesStart(st: RenderState, t: string)
    ensures Step(Step(st, StartTag(t)), EndTag(t)).stack == st.stack
  {
    assert (st.stack + [t])[..|st.stack|] == st.stack;
  }

  /** An end tag that is not the innermost open one leaves the stack alone,
      and only a paragraph end writes anything. */
  lemma MismatchedEndKeepsStack(st: RenderState, t: string)
    requires st.stack == [] || st.stack[|st.stack| - 1] != t
    ensures Step(st, EndTag(t)).stack == st.stack
    ensures Step(st, EndTag(t)).out == st.out + (if t == "p" then [ParagraphBreak] else [])
  {
  }

  /** A paragraph end writes a blank line whether or not it matches. */
  lemma ParagraphEndBreaks(st: RenderState)
    ensures Step(st, EndTag("p")).out == st.out + [ParagraphBreak]
  {
  }

  /** Output is only ever appended to. */
  lemma {:induction false} RunExtendsOutput(st: RenderState, toks: seq<Token>)
    ensures |st.out| <= |Run(st, toks).out| && Run(st, toks).out[..|st.out|] == st.out
    decreases |toks|
  {
    if toks != [] {
      RunExtendsOutput(st, toks[..|toks| - 1]);
      var mid := Run(st, toks[..|toks| - 1]);
      assert Step(mid, toks[|toks| - 1]).out[..|mid.out|] == mid.out;
    }
  }

  /** Feeding two streams one after the other is feeding their
      concatenation. */
  lemma {:induction false} RunAppend(st: RenderState, a: seq<Token>, b: seq<Token>)
    ensures Run(st, a + b) == Run(Run(st, a), b)
    decreases |b|
  {
    if b == [] {
      assert a + b == a;
    } else {
      assert (a + b)[..|a + b| - 1] == a + b[..|b| - 1];
      assert (a + b)[|a + b| - 1] == b[|b| - 1];
      RunAppend(st, a, b[..|b| - 1]);
    }
  }

  /** What the stack becomes does not depend on the text written so far. */
  lemma {:induction false} StackIgnoresOutput(s: seq<string>, o1: seq<Segment>, o2: seq<Segment>, toks: seq<Token>)
    ensures Run(RenderState(s, o1), toks).stack == Run(RenderState(s, o2), toks).stack
    decreases |toks|
  {
    if toks != [] {
      StackIgnoresOutput(s, o1, o2, toks[..|toks| - 1]);
    }
  }

  /** An element whose content leaves the stack as it found it leaves the
      enclosing stack unchanged too: balanced markup does not leak. */
  lemma WrapKeepsStack(s: seq<string>, o: seq<Segment>, t: string, inner: seq<Token>)
    requires Run(RenderState(s + [t], []), inner).stack == s + [t]
    ensures Run(RenderState(s, o), [StartTag(t)] + inner + [EndTag(t)]).stack == s
  {
    var st := RenderState(s, o);
    RunAppend(st, [StartTag(t)], inner);
    RunAppend(st, [StartTag(t)] + inner, [EndTag(t)]);
    assert Run(st, [StartTag(t)]) == RenderState(s + [t], o);
    StackIgnoresOutput(s + [t], o, [], inner);
    assert (s + [t])[..|s|] == s;
  }

  /** The preview: a text widget's content and the renderer's tag stack,
      which is created once and survives from one render to the next. */
  class HtmlRenderer {
    var tagStack: seq<string>
    var output: seq<Segment>

    constructor ()
      ensures tagStack == [] && output == []
    {
      tagStack := [];
      output := [];
    }

    /** `handle_starttag`. */
    method HandleStartTag(t: string)
      modifies this
      ensures RenderState(tagStack, output) == Step(old(RenderState(tagStack, output)), StartTag(t))
    {
      tagStack := tagStack + [t];
    }

    /** `handle_endtag`. */
    method HandleEndTag(t: string)
      modifies this
      ensures RenderState(tagStack, output) == Step(old(RenderState(tagStack, output)), EndTag(t))
    {
      if t == "p" {
        output := output + [ParagraphBreak];
      }
      if tagStack != [] && tagStack[|tagStack| - 1] == t {
        tagStack := tagStack[..|tagStack| - 1];
      }
    }

    /** `handle_data`. */
    method HandleData(d: string)
      modifies this
      ensures RenderState(tagStack, output) == Step(old(RenderState(tagStack, output)), Data(d))
    {
      var tags: seq<string> := [];
      if "strong" in tagStack || "b" in tagStack {
        tags := tags + ["bold"];
      }
      if "em" in tagStack || "i" in tagStack {
        tags := tags + ["italic"];
      }
      assert tags == DisplayTags(tagStack);
      output := output + [Segment(d, tags)];
    }

    /** `feed`: the tokens go to the handlers in order. */
    method Feed(toks: seq<Token>)
      modifies this
      ensures RenderState(tagStack, output) == Run(old(RenderState(tagStack, output)), toks)
    {
      ghost var start := RenderState(tagStack, output);
      var i := 0;
      while i < |toks|
        invariant 0 <= i <= |toks|
        invariant RenderState(tagStack, output) == Run(start, toks[..i])
      {
        RunSnoc(start, toks, i);
        match toks[i] {
          case StartTag(t) => HandleStartTag(t);
          case EndTag(t) => HandleEndTag(t);
          case Data(d) => HandleData(d);
        }
        i := i + 1;
      }
      assert toks[..i] == toks;
    }

    /** `render(html)`: the widget is cleared, the stack is not. */
    method Render(toks: seq<Token>)
      modifies this
      ensures RenderState(tagStack, output) == Run(RenderState(old(tagStack), []), toks)
    {
      output := [];
      Feed(toks);
    }
  }

  /** A bold element left open in one render makes the next render's text
      bold. */
  lemma UnclosedTagLeaks()
    ensures var first := Run(RenderState([], []), [StartTag("b")]);
            first.stack == ["b"] &&
            Run(RenderState(first.stack, []), [Data("x")]).out == [Segment("x", ["bold"])]
  {
    var first := Run(RenderState([], []), [StartTag("b")]);
    assert [StartTag("b")][..0] == [];
    assert first.stack == ["b"];
    assert [Data("x")][..0] == [];
    assert DisplayTags(["b"]) == ["bold"];
  }
}
