/** The article draft handed between the pipeline stages, and the two ways
    the program turns its tag list into text and back: `", ".join(tags)`
    when a draft is shown (app.py `_fill_draft`) and the comma split with
    stripping and empty entries dropped when the tag field is read back
    (app.py `_hilo_verificacion`, `_mostrar_verificacion`, `_publicar`). */
module News {
  import opened Text

  /** A draft: `titulo`, `entradilla`, `contenido` (HTML) and `etiquetas`.
      It also stands for the backend's `texto_corregido`, where a missing
      key reads as the empty string or list. */
  datatype Article = Article(titulo: string, entradilla: string, contenido: string, etiquetas: seq<string>)

  const EmptyArticle := Article("", "", "", [])

  /** `", ".join(tags)`. */
  function JoinTags(tags: seq<string>): string {
    Join(tags, ", ")
  }

  /** The pieces of a comma split, stripped, with the empty ones dropped. */
  function CleanTags(pieces: seq<string>): (r: seq<string>)
    ensures |r| <= |pieces|
    ensures forall k :: 0 <= k < |r| ==> r[k] != [] && Strip(r[k]) == r[k]
  {
    if pieces == [] then []
    else
      var t := Strip(pieces[0]);
      StripIdempotent(pieces[0]);
      if t == [] then CleanTags(pieces[1..]) else [t] + CleanTags(pieces[1..])
  }

  /** `[t.strip() for t in text.split(",") if t.strip()]`. */
  function ParseTags(text: string): (r: seq<string>)
    ensures forall k :: 0 <= k < |r| ==> WellFormedTag(r[k])
  {
    var pieces := Split(text, ',');
    CleanTagsNoComma(pieces);
    CleanTags(pieces)
  }

  /** A tag as the tag field yields it: non-empty, without commas and
      without surrounding whitespace. */
  predicate WellFormedTag(t: string) {
    t != [] && ',' !in t && Strip(t) == t
  }

  lemma {:induction false} CleanTagsNoComma(pieces: seq<string>)
    requires forall k :: 0 <= k < |pieces| ==> ',' !in pieces[k]
    ensures forall k :: 0 <= k < |CleanTags(pieces)| ==> ',' !in CleanTags(pieces)[k]
  {
    if pieces != [] {
      CleanTagsNoComma(pieces[1..]);
    }
  }

  /** One piece yields its strip, or nothing when it is blank. */
  lemma CleanTagsOne(x: string)
    ensures CleanTags([x]) == if Strip(x) == [] then [] else [Strip(x)]
  {
    assert [x][1..] == [];
  }

  /** Cleaning works piece by piece: the tags of two runs of pieces are the
      tags of the first followed by those of the second. */
  lemma {:induction false} CleanTagsAppend(a: seq<string>, b: seq<string>)
    ensures CleanTags(a + b) == CleanTags(a) + CleanTags(b)
  {
    if a == [] {
      assert a + b == b;
    } else {
      assert (a + b)[0] == a[0];
      assert (a + b)[1..] == a[1..] + b;
      CleanTagsAppend(a[1..], b);
    }
  }

  /** Reading back a field made of comma-free pieces joined by commas
      gives the cleaned pieces, in order. */
  lemma ParseTagsOfPieces(parts: seq<string>)
    requires parts != []
    requires forall k :: 0 <= k < |parts| ==> ',' !in parts[k]
    ensures ParseTags(Join(parts, [','])) == CleanTags(parts)
  {
    SplitJoin(parts, ',');
  }

  /** Showing any list of comma-free tags and reading the field back gives
      the tags cleaned: each one stripped, the blank ones dropped, in
      order. */
  lemma ShownTagsReadBack(tags: seq<string>)
    ensures (forall k :: 0 <= k < |tags| ==> ',' !in tags[k]) ==>
              ParseTags(JoinTags(tags)) == CleanTags(tags)
  {
    if forall k :: 0 <= k < |tags| ==> ',' !in tags[k] {
      ParseTagsOfShown([], tags);
      assert [] + JoinTags(tags) == JoinTags(tags);
    }
  }

  lemma {:induction false} ParseTagsOfShown(w: string, tags: seq<string>)
    requires AllSpace(w)
    requires forall k :: 0 <= k < |tags| ==> ',' !in tags[k]
    ensures ParseTags(w + JoinTags(tags)) == CleanTags(tags)
    decreases tags
  {
    NoCommaInSpaces(w);
    if tags == [] {
      assert w + JoinTags(tags) == w;
      ParseTagsOfUnsplit(w);
      CleanTagsOne(w);
    } else if |tags| == 1 {
      assert w + JoinTags(tags) == w + tags[0];
      ParseTagsOfUnsplit(w + tags[0]);
      StripOfPrefixed(w, tags[0]);
      CleanTagsOne(w + tags[0]);
      CleanTagsOne(tags[0]);
    } else {
      var t := tags[0];
      var tail := tags[1..];
      assert tags == [t] + tail;
      assert forall k :: 0 <= k < |tail| ==> ',' !in tail[k] by {
        forall k | 0 <= k < |tail| ensures ',' !in tail[k] {
          assert tail[k] == tags[k + 1];
        }
      }
      var rest := JoinTags(tail);
      assert w + JoinTags(tags) == (w + t) + [','] + (" " + rest);
      SplitAtFirst(w + t, ',', " " + rest);
      CleanTagsAppend([w + t], Split(" " + rest, ','));
      StripOfPrefixed(w, t);
      CleanTagsOne(w + t);
      CleanTagsOne(t);
      CleanTagsAppend([t], tail);
      OneSpace();
      ParseTagsOfShown(" ", tail);
    }
  }

  /** Showing a list of well-formed tags and reading the field back gives
      the same list. */
  lemma ParseTagsOfJoined(tags: seq<string>)
    requires forall k :: 0 <= k < |tags| ==> WellFormedTag(tags[k])
    ensures ParseTags(JoinTags(tags)) == tags
  {
    ParseTagsAfterSpaces([], tags);
    assert [] + JoinTags(tags) == JoinTags(tags);
  }

  lemma ParseTagsAfterSpaces(w: string, tags: seq<string>)
    requires AllSpace(w)
    requires forall k :: 0 <= k < |tags| ==> WellFormedTag(tags[k])
    ensures ParseTags(w + JoinTags(tags)) == tags
  {
    ParseTagsOfShown(w, tags);
    CleanTagsOfWellFormed(tags);
  }

  /** Well-formed tags come out of cleaning as they went in. */
  lemma {:induction false} CleanTagsOfWellFormed(tags: seq<string>)
    requires forall k :: 0 <= k < |tags| ==> WellFormedTag(tags[k])
    ensures CleanTags(tags) == tags
  {
    if tags != [] {
      assert WellFormedTag(tags[0]);
      CleanTagsOfWellFormed(tags[1..]);
    }
  }

  lemma OneSpace()
    ensures AllSpace(" ")
  {
    assert " "[0] == ' ';
  }

  lemma NoCommaInSpaces(w: string)
    requires AllSpace(w)
    ensures ',' !in w
  {
    forall k | 0 <= k < |w| ensures w[k] != ',' {
      assert IsSpace(w[k]);
    }
  }

  /** Text without a comma is one piece. */
  lemma ParseTagsOfUnsplit(s: string)
    requires ',' !in s
    ensures ParseTags(s) == CleanTags([s])
  {
    assert Find(s, ',') == -1;
  }
}
