/** Which keys any template renders as they are (pathFromKeyParts in core/modrulestoreitem.go, which
    cleans up after Sprintf by looking for its marks). */
module SafeKeys {
  import opened Values
  import opened Decimals
  import opened SelectKeys
  import opened Formats
  import opened PathTemplates

  predicate StartsAt(s: string, mark: string, i: nat) {
    i <= |s| && mark <= s[i..]
  }

  lemma {:induction false} ReplaceShrinks(s: string, i: nat)
    ensures |ReplaceBad(s)| <= |s|
    ensures StartsAt(s, BAD_VERB, i) ==> |ReplaceBad(s)| < |s|
    decreases |s|
  {
    if s != [] {
      if BAD_VERB <= s {
        ReplaceShrinks(s[|BAD_VERB|..], 0);
      } else {
        assert i > 0 && i <= |s| ==> s[i..] == s[1..][i - 1..];
        assert s[0..] == s;
        ReplaceShrinks(s[1..], if i > 0 then i - 1 else 0);
      }
    }
  }

  lemma {:induction false} CutShrinks(s: string, i: nat)
    ensures |CutExtra(s)| <= |s|
    ensures StartsAt(s, EXTRA, i) ==> |CutExtra(s)| < |s|
  {
    if s != [] && !(EXTRA <= s) {
      assert i > 0 && i <= |s| ==> s[i..] == s[1..][i - 1..];
      assert s[0..] == s;
      CutShrinks(s[1..], if i > 0 then i - 1 else 0);
    }
  }

  lemma {:induction false} NothingReplaced(s: string)
    requires forall i | 0 <= i <= |s| :: !StartsAt(s, BAD_VERB, i)
    ensures ReplaceBad(s) == s
  {
    if s != [] {
      assert s[0..] == s && !StartsAt(s, BAD_VERB, 0);
      forall i | 0 <= i <= |s[1..]| ensures !StartsAt(s[1..], BAD_VERB, i) {
        assert s[1..][i..] == s[i + 1..] && !StartsAt(s, BAD_VERB, i + 1);
      }
      NothingReplaced(s[1..]);
      assert [s[0]] + s[1..] == s;
    }
  }

  /** A mark in the rendered text makes the clean-up change the text. */
  lemma MarkSpoils(s: string, mark: string, i: nat)
    requires (mark == BAD_VERB || mark == EXTRA) && StartsAt(s, mark, i)
    ensures CutExtra(ReplaceBad(s)) != s
  {
    if j :| 0 <= j <= |s| && StartsAt(s, BAD_VERB, j) {
      ReplaceShrinks(s, j);
      CutShrinks(ReplaceBad(s), 0);
    } else {
      NothingReplaced(s);
      CutShrinks(s, i);
    }
  }

  // ---- One placeholder and some text ----

  lemma OneHole(w: string)
    requires '#' !in w && (w != [] ==> !IsDigit(w[0]))
    ensures Pieces("#0" + w) == [Hole("0")] + Texts(w)
  {
    var t := "#0" + w;
    assert t[1..] == "0" + w && ("0" + w)[1..] == w;
    assert DigitRun(w) == 0 && DigitRun("0" + w) == 1;
    assert t[1..2] == "0" && t[2..] == w;
    PiecesOfText(w);
  }

  lemma FillOneHole(w: string, key: string, mark: string)
    requires '#' !in w && (w != [] ==> !IsDigit(w[0]))
    ensures FillAll(Pieces("#0" + w), [StrPart(key)], mark) == key + w
    ensures Holes(Pieces("#0" + w)) != []
  {
    var hole: seq<Piece> := [Hole("0")];
    OneHole(w);
    FillAppend(hole, Texts(w), [StrPart(key)], mark);
    FillTexts(w, [StrPart(key)], mark);
    FillJustHole(key, mark);
    var ps := hole + Texts(w);
    assert ps[0] == Hole("0");
  }

  lemma FillJustHole(key: string, mark: string)
    ensures FillAll([Hole("0")], [StrPart(key)], mark) == key
  {
    var hole: seq<Piece> := [Hole("0")];
    assert Value("0") == 0 by { assert "0"[..0] == ""; }
    assert hole[1..] == [];
    assert key + "" == key;
  }

  lemma RenderOneHole(w: string, key: string)
    requires NoPercent(w) && '#' !in w && (w != [] ==> !IsDigit(w[0]))
    ensures NoPercent("#0" + w)
    ensures Render("#0" + w, [StrPart(key)]) == Some(CutExtra(ReplaceBad(key + w)))
    ensures Substitute("#0" + w, [StrPart(key)]) == key + w
  {
    var t, parts := "#0" + w, [StrPart(key)];
    FillOneHole(w, key, BAD_VERB);
    FillOneHole(w, key, BAD_INDEX);
    CompileIndexed(t);
    PiecesLack(t, '%');
    RenderRaw(Pieces(t), parts, 0, false);
    assert Leftover(Pieces(t), parts, 0, false) == "" && key + w + "" == key + w;
  }

  lemma MarkTail(mark: string, k: nat)
    requires (mark == BAD_VERB || mark == EXTRA) && 1 <= k <= |mark|
    ensures NoPercent(mark[k..]) && '#' !in mark[k..] && (k < |mark| ==> !IsDigit(mark[k..][0]))
  {
    assert forall i | 1 <= i < |BAD_VERB| :: BAD_VERB[i] != '%' && BAD_VERB[i] != '#' && !IsDigit(BAD_VERB[i]);
    assert forall i | 1 <= i < |EXTRA| :: EXTRA[i] != '%' && EXTRA[i] != '#' && !IsDigit(EXTRA[i]);
  }

  /** The text after the placeholder that completes a mark begun in the key. */
  lemma Spoiled(key: string, i: nat, mark: string) returns (w: string)
    requires i < |key| && (mark == BAD_VERB || mark == EXTRA) && Agree(key[i..], mark)
    ensures NoPercent("#0" + w)
    ensures Render("#0" + w, [StrPart(key)]) != Some(Substitute("#0" + w, [StrPart(key)]))
  {
    if mark <= key[i..] {
      w := "";
      assert key + w == key;
    } else {
      var k := |key| - i;
      MarkTail(mark, k);
      w := mark[k..];
      assert (key + w)[i..] == key[i..] + w == mark;
    }
    RenderOneHole(w, key);
    MarkSpoils(key + w, mark, i);
  }

  /** Every template without percent signs renders the key as it is. */
  ghost predicate IsSafe(key: string) {
    forall t | NoPercent(t) :: RendersWell(t, key)
  }

  predicate RendersWell(template: string, key: string) {
    Render(template, [StrPart(key)]) == Some(Substitute(template, [StrPart(key)]))
  }

  /** A key is safe in every template if and only if no mark occurs in it and it does not end with
      the beginning of one. */
  lemma TameIsExact(key: string)
    ensures IsSafe(key) <==> Tame(key)
  {
    if Tame(key) {
      forall t | NoPercent(t) ensures RendersWell(t, key) {
        RenderIsSubstitution(t, [StrPart(key)]);
      }
    } else {
      var i :| 0 <= i < |key| && (Agree(key[i..], BAD_VERB) || Agree(key[i..], EXTRA));
      var w := Spoiled(key, i, if Agree(key[i..], BAD_VERB) then BAD_VERB else EXTRA);
      assert !RendersWell("#0" + w, key);
    }
  }
}
