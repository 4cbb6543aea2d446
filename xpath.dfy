/**
 * The predicate of the date query
 *   //p[contains(concat(' ', normalize-space(@class), ' '), ' date ')]
 * and the proof that it selects exactly the paragraphs with a whole `date` class token.
 */
module XPath {
  import opened Strings

  /** A class token: non-empty and free of white space. */
  predicate IsWord(w: string) {
    w != [] && forall i :: 0 <= i < |w| ==> !IsXmlSpace(w[i])
  }

  /** The white-space separated tokens of `s`, in order. */
  function Words(s: string): (ws: seq<string>)
    ensures forall i :: 0 <= i < |ws| ==> IsWord(ws[i])
    decreases |s|
  {
    if s == [] then []
    else if IsXmlSpace(s[0]) then Words(s[1..])
    else
      var w := TakeWhile(s, NonSpace);
      [w] + Words(s[|w|..])
  }

  /** The tokens joined by single spaces. */
  function Join(ws: seq<string>): string {
    if ws == [] then "" else if |ws| == 1 then ws[0] else ws[0] + " " + Join(ws[1..])
  }

  /** The shape normalize-space produces: no white space at either end, inner white space a lone space. */
  predicate Normalized(r: string) {
    && (r != [] ==> !IsXmlSpace(r[0]) && !IsXmlSpace(r[|r| - 1]))
    && forall i :: 0 <= i < |r| && IsXmlSpace(r[i]) ==> r[i] == ' ' && 0 < i < |r| - 1 && !IsXmlSpace(r[i + 1])
  }

  /** Tokens joined by single spaces have the normalized shape. */
  lemma {:induction false} JoinNormalized(ws: seq<string>)
    requires forall i :: 0 <= i < |ws| ==> IsWord(ws[i])
    ensures Normalized(Join(ws))
    ensures Join(ws) == [] <==> ws == []
  {
    if |ws| > 1 {
      var w, rest := ws[0], ws[1..];
      assert forall i :: 0 <= i < |rest| ==> IsWord(rest[i]) by {
        forall i | 0 <= i < |rest| ensures IsWord(rest[i]) { assert rest[i] == ws[i + 1]; }
      }
      JoinNormalized(rest);
      var t := Join(rest);
      var r := w + " " + t;
      assert Join(ws) == r;
      assert IsWord(ws[0]);
      assert forall i :: 0 <= i < |w| ==> r[i] == w[i] && !IsXmlSpace(r[i]);
      forall i | 0 <= i < |r| && IsXmlSpace(r[i])
        ensures r[i] == ' ' && 0 < i < |r| - 1 && !IsXmlSpace(r[i + 1])
      {
        if i > |w| {
          assert r[i] == t[i - |w| - 1];
          assert r[i + 1] == t[i - |w|];
        } else if i == |w| {
          assert r[i + 1] == t[0];
        }
      }
      assert r[|r| - 1] == t[|t| - 1];
      assert r[0] == w[0];
    } else if |ws| == 1 {
      assert IsWord(ws[0]);
    }
  }

  /**
   * XPath normalize-space(): leading and trailing white space dropped, inner runs made one
   * space; empty exactly when `s` has no token.
   */
  function NormalizeSpace(s: string): (r: string)
    ensures Normalized(r)
    ensures r == [] <==> Words(s) == []
  {
    JoinNormalized(Words(s));
    Join(Words(s))
  }

  const DateToken := " date "

  /** The date query's test on a paragraph's class attribute. */
  predicate HasDateClass(classes: string) {
    Contains(" " + NormalizeSpace(classes) + " ", DateToken)
  }

  /** " w1 w2 ... wn ": each token preceded by a space, and a closing space. */
  function Framed(ws: seq<string>): string {
    if ws == [] then " " else " " + ws[0] + Framed(ws[1..])
  }

  lemma {:induction false} FramedJoin(ws: seq<string>)
    requires ws != []
    ensures " " + Join(ws) + " " == Framed(ws)
  {
    if |ws| > 1 {
      FramedJoin(ws[1..]);
      assert " " + Join(ws) + " " == " " + ws[0] + (" " + Join(ws[1..]) + " ");
    }
  }

  /** ` date ` at the very start of " " + w + R, where R starts with a space, means w is `date`. */
  lemma FramedHead(w: string, R: string)
    requires IsWord(w) && R != [] && R[0] == ' '
    ensures OccursAt(" " + w + R, DateToken, 0) <==> w == "date"
  {
    var S := " " + w + R;
    if w == "date" {
      assert S[..6] == DateToken;
    }
    assert forall i :: 1 <= i <= |w| ==> S[i] == w[i - 1] && !IsXmlSpace(S[i]);
    assert S[1 + |w|] == ' ';
    if OccursAt(S, DateToken, 0) {
      assert S[..6] == DateToken;
      assert S[0] == ' ' && S[1] == 'd' && S[2] == 'a' && S[3] == 't' && S[4] == 'e' && S[5] == ' ';
      assert |w| == 4;
      assert S[1..5] == w;
    }
  }

  /** ` date ` cannot start inside a token, since it starts with a space. */
  lemma FramedMiddle(w: string, R: string, k: int)
    requires IsWord(w) && 0 < k <= |w|
    ensures !OccursAt(" " + w + R, DateToken, k)
  {
    var S := " " + w + R;
    assert S[k] == w[k - 1];
  }

  /** Past the first token, occurrences in " " + w + R are those of R, shifted. */
  lemma FramedShift(w: string, R: string, k: int)
    requires 0 <= k
    ensures OccursAt(" " + w + R, DateToken, k + 1 + |w|) <==> OccursAt(R, DateToken, k)
  {
    var S := " " + w + R;
    var off := 1 + |w|;
    if k + 6 <= |R| {
      assert S[k + off..k + off + 6] == R[k..k + 6];
    }
  }

  /** In a framed token list, ` date ` occurs exactly when `date` is one of the tokens. */
  lemma {:induction false} FramedToken(ws: seq<string>)
    requires forall i :: 0 <= i < |ws| ==> IsWord(ws[i])
    ensures (exists k :: OccursAt(Framed(ws), DateToken, k)) <==> "date" in ws
  {
    if ws != [] {
      var w, rest := ws[0], ws[1..];
      assert forall i :: 0 <= i < |rest| ==> IsWord(rest[i]) by {
        forall i | 0 <= i < |rest| ensures IsWord(rest[i]) { assert rest[i] == ws[i + 1]; }
      }
      assert ws == [w] + rest;
      FramedToken(rest);
      var R := Framed(rest);
      assert Framed(ws) == " " + w + R;
      assert R[0] == ' ';
      FramedHead(w, R);
      if "date" in ws {
        if w != "date" {
          var i :| 0 <= i < |ws| && ws[i] == "date";
          assert rest[i - 1] == "date";
          var k :| OccursAt(R, DateToken, k);
          FramedShift(w, R, k);
          assert OccursAt(Framed(ws), DateToken, k + 1 + |w|);
        } else {
          assert OccursAt(Framed(ws), DateToken, 0);
        }
      }
      if k :| OccursAt(Framed(ws), DateToken, k) {
        if k == 0 {
          assert w == "date";
        } else if k <= |w| {
          FramedMiddle(w, R, k);
        } else {
          var j := k - 1 - |w|;
          FramedShift(w, R, j);
          assert OccursAt(Framed(rest), DateToken, j);
          var i :| 0 <= i < |rest| && rest[i] == "date";
          assert ws[i + 1] == "date";
        }
        assert "date" in ws;
        assert exists k' :: OccursAt(Framed(ws), DateToken, k');
      }
    }
  }

  /** The date query matches a class attribute exactly when `date` is one of its tokens. */
  lemma DateClassIsWholeToken(classes: string)
    ensures HasDateClass(classes) <==> "date" in Words(classes)
  {
    var ws := Words(classes);
    var padded := " " + NormalizeSpace(classes) + " ";
    if ws == [] {
      assert padded == "  ";
    } else {
      FramedJoin(ws);
      FramedToken(ws);
    }
  }

  /** A class value without white space is a single token. */
  lemma SingleToken(classes: string)
    requires IsWord(classes)
    ensures Words(classes) == [classes]
  {
    TakeWhileOf(classes, [], NonSpace);
    assert classes + [] == classes;
  }

  /** Classes such as `dates` or `update` do not make a date paragraph. */
  lemma NearMissClasses()
    ensures !HasDateClass("dates") && !HasDateClass("update")
  {
    SingleToken("dates");
    DateClassIsWholeToken("dates");
    SingleToken("update");
    DateClassIsWholeToken("update");
  }

  /** A token followed by white space (or nothing) is the first token. */
  lemma WordsCons(w: string, rest: string)
    requires IsWord(w) && (rest == [] || IsXmlSpace(rest[0]))
    ensures Words(w + rest) == [w] + Words(rest)
  {
    TakeWhileOf(w, rest, NonSpace);
    assert (w + rest)[|w|..] == rest;
  }

  /** A token and a space come off the front of the token list. */
  lemma WordsSpaced(w: string, rest: string)
    requires IsWord(w)
    ensures Words(w + " " + rest) == [w] + Words(rest)
  {
    var t := " " + rest;
    WordsCons(w, t);
    assert t[1..] == rest;
    assert w + " " + rest == w + t;
  }

  /** Three tokens separated by single spaces split back into those three tokens. */
  lemma ThreeWords(a: string, b: string, c: string)
    requires IsWord(a) && IsWord(b) && IsWord(c)
    ensures Words(a + " " + b + " " + c) == [a, b, c]
  {
    WordsCons(c, []);
    assert c + [] == c;
    WordsSpaced(b, c);
    WordsSpaced(a, b + " " + c);
    assert a + " " + b + " " + c == a + " " + (b + " " + c);
  }

  /** A `date` token between two other tokens, as in `meta date published`, is matched. */
  lemma DateBetweenTokens(before: string, after: string)
    requires IsWord(before) && IsWord(after)
    ensures HasDateClass(before + " date " + after)
  {
    var c := before + " date " + after;
    assert c == before + " " + "date" + " " + after;
    ThreeWords(before, "date", after);
    DateClassIsWholeToken(c);
  }
}
