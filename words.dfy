/** The word list a codebase uses to give generated names their capitals
    (src/Codebase.js: `_words`, `_addWords`, `_addWordsFromClassNames` and
    `capitalize`). Each word's regular expression `new RegExp(word, 'gi')` is
    modelled as a case-insensitive literal search for the word. */
module Words {

  import opened Wrappers
  import Text
  import Seqs

  /** The words every codebase starts with. */
  const DefaultWords: seq<string> := [
    "Change", "Tap", "HeaderPin", "KeyUp", "Initialize", "Disclose",
    "Record", "Validated", "Cmp", "Icon", "Mode", "Width"]

  /** The ordering `_addWords` intends: shorter words first and, among words of the same
      length, the configured (custom) words last, so that they are applied last. */
  function WordLe(custom: seq<string>): (string, string) -> bool {
    (a: string, b: string) => |a| < |b| || (|a| == |b| && (a in custom ==> b in custom))
  }

  lemma WordLeTotalPreorder(custom: seq<string>)
    ensures Seqs.TotalPreorder(WordLe(custom))
  {
  }

  /** The comparator `_addWords` passes to `sort`, as written. */
  function WordCompareAsWritten(custom: seq<string>, a: string, b: string): int {
    var diff := |a| - |b|;
    if diff == 0 then (if a in custom then 1 else -1) else diff
  }

  /** The comparator as written answers "before" in both directions for two words of
      the same length that are not custom words, so the order it gives them is not
      determined by the comparator (`sort` needs a consistent one). */
  lemma WordCompareAsWrittenInconsistent(custom: seq<string>, a: string, b: string)
    requires |a| == |b| && a !in custom && b !in custom
    ensures WordCompareAsWritten(custom, a, b) < 0 && WordCompareAsWritten(custom, b, a) < 0
  {
  }

  /** The comparator as written, on two built-in words of the same length. */
  lemma WordCompareAsWrittenExample()
    ensures WordCompareAsWritten([], DefaultWords[0], DefaultWords[6]) < 0
    ensures WordCompareAsWritten([], DefaultWords[6], DefaultWords[0]) < 0
  {
    WordCompareAsWrittenInconsistent([], DefaultWords[0], DefaultWords[6]);
  }

  /** `_addWords(words)`: the distinct words of both lists, in the intended order. */
  function AddWords(prior: seq<string>, words: seq<string>, custom: seq<string>): seq<string> {
    Seqs.Sort(Seqs.Uniq(prior + words), WordLe(custom))
  }

  /** The new word list holds each word of either list exactly once, shortest first, and
      a custom word never precedes a non-custom word of the same length. */
  lemma AddWordsSpec(prior: seq<string>, words: seq<string>, custom: seq<string>, w: string)
    ensures var r := AddWords(prior, words, custom);
      Seqs.NoDuplicates(r) &&
      (w in r <==> w in prior || w in words) &&
      (forall i, j :: 0 <= i < j < |r| ==> |r[i]| <= |r[j]|) &&
      (forall i, j :: 0 <= i < j < |r| && |r[i]| == |r[j]| && r[i] in custom ==> r[j] in custom)
  {
    var u := Seqs.Uniq(prior + words);
    var r := AddWords(prior, words, custom);
    WordLeTotalPreorder(custom);
    Seqs.SortSorted(u, WordLe(custom));
    Seqs.SortNoDuplicates(u, WordLe(custom));
    Seqs.SortMembers(u, WordLe(custom), w);
    assert forall i, j :: 0 <= i < j < |r| ==> WordLe(custom)(r[i], r[j]);
  }

  /** `s.split(/(?=[A-Z])/)`: the string cut before every upper-case letter that is not
      its first character. `cur` is the piece being built. */
  function CamelPieces(s: string, cur: string): (r: seq<string>)
    ensures |r| >= 1
    decreases |s|
  {
    if s == [] then [cur]
    else if Text.IsUpper(s[0]) && cur != [] then [cur] + CamelPieces(s[1..], [s[0]])
    else CamelPieces(s[1..], cur + [s[0]])
  }

  function Concat(parts: seq<string>): string
    decreases |parts|
  {
    if parts == [] then "" else parts[0] + Concat(parts[1..])
  }

  /** The pieces put back together give the string. */
  lemma {:induction false} CamelPiecesConcat(s: string, cur: string)
    ensures Concat(CamelPieces(s, cur)) == cur + s
    decreases |s|
  {
    if s != [] {
      if Text.IsUpper(s[0]) && cur != [] {
        CamelPiecesConcat(s[1..], [s[0]]);
        assert s == [s[0]] + s[1..];
      } else {
        CamelPiecesConcat(s[1..], cur + [s[0]]);
        assert s == [s[0]] + s[1..];
      }
    }
  }

  /** No upper-case letter after the first character. */
  predicate LowerTail(p: string) {
    forall k :: 1 <= k < |p| ==> !Text.IsUpper(p[k])
  }

  /** Every piece after the first starts with an upper-case letter, and no piece has an
      upper-case letter after its first character. */
  predicate CamelShaped(r: seq<string>) {
    (forall i :: 0 <= i < |r| ==> LowerTail(r[i])) &&
    (forall i :: 1 <= i < |r| ==> r[i] != [] && Text.IsUpper(r[i][0]))
  }

  lemma {:induction false} CamelPiecesShape(s: string, cur: string)
    requires LowerTail(cur)
    ensures CamelShaped(CamelPieces(s, cur))
    decreases |s|
  {
    if s != [] {
      if Text.IsUpper(s[0]) && cur != [] {
        CamelPiecesShape(s[1..], [s[0]]);
        var rest := CamelPieces(s[1..], [s[0]]);
        assert CamelPieces(s, cur) == [cur] + rest;
        CamelPiecesHead(s[1..], [s[0]]);
        assert rest[0][..1] == [s[0]];
        ShapedCons(cur, rest);
      } else {
        LowerTailExtend(cur, s[0]);
        CamelPiecesShape(s[1..], cur + [s[0]]);
      }
    }
  }

  /** A piece with a lower-case tail followed by shaped pieces, the first of them
      starting with an upper-case letter, is shaped. */
  lemma ShapedCons(cur: string, rest: seq<string>)
    requires LowerTail(cur) && CamelShaped(rest)
    requires rest != [] && rest[0] != [] && Text.IsUpper(rest[0][0])
    ensures CamelShaped([cur] + rest)
  {
    var r := [cur] + rest;
    forall i | 1 <= i < |r| ensures r[i] != [] && Text.IsUpper(r[i][0]) {
      assert r[i] == rest[i - 1];
    }
    forall i | 0 <= i < |r| ensures LowerTail(r[i]) {
      if i > 0 {
        assert r[i] == rest[i - 1];
      }
    }
  }

  /** Appending a character keeps the tail lower-case unless it is an upper-case letter
      after a non-empty piece. */
  lemma LowerTailExtend(cur: string, c: char)
    requires LowerTail(cur)
    requires !(Text.IsUpper(c) && cur != [])
    ensures LowerTail(cur + [c])
  {
    var next := cur + [c];
    forall k | 1 <= k < |next| ensures !Text.IsUpper(next[k]) {
      if k < |cur| {
        assert next[k] == cur[k];
      }
    }
  }

  /** The first piece extends the piece being built. */
  lemma {:induction false} CamelPiecesHead(s: string, cur: string)
    ensures |CamelPieces(s, cur)[0]| >= |cur| && CamelPieces(s, cur)[0][..|cur|] == cur
    ensures (s == [] || (Text.IsUpper(s[0]) && cur != [])) ==> CamelPieces(s, cur)[0] == cur
    decreases |s|
  {
    if s != [] && !(Text.IsUpper(s[0]) && cur != []) {
      CamelPiecesHead(s[1..], cur + [s[0]]);
      assert (cur + [s[0]])[..|cur|] == cur;
    }
  }

  function CamelSplit(s: string): seq<string> {
    CamelPieces(s, "")
  }

  /** The words `_addWordsFromClassNames(classNames)` adds: the class names cut at the dots
      and before capitals, the pieces longer than three characters, capitalised. */
  function ClassWords(classNames: seq<string>): (r: seq<string>)
    ensures forall w :: w in r ==> |w| > 3
    decreases |classNames|
  {
    if classNames == [] then []
    else PartWords(Text.Split(classNames[0], '.')) + ClassWords(classNames[1..])
  }

  function PartWords(parts: seq<string>): (r: seq<string>)
    ensures forall w :: w in r ==> |w| > 3
    decreases |parts|
  {
    if parts == [] then []
    else PieceWords(CamelSplit(parts[0])) + PartWords(parts[1..])
  }

  function PieceWords(pieces: seq<string>): (r: seq<string>)
    ensures forall w :: w in r ==> |w| > 3
    ensures |r| <= |pieces|
    decreases |pieces|
  {
    if pieces == [] then []
    else if |pieces[0]| > 3 then [Text.Capitalize(pieces[0])] + PieceWords(pieces[1..])
    else PieceWords(pieces[1..])
  }

  /** Every added word is a piece of a class name with only its first letter upper case. */
  lemma {:induction false} PieceWordsCapitalised(pieces: seq<string>, w: string)
    requires w in PieceWords(pieces)
    ensures Text.IsUpper(w[0]) || !Text.IsLower(w[0])
    ensures forall k :: 1 <= k < |w| ==> !Text.IsUpper(w[k])
    ensures exists p :: p in pieces && Text.ToLower(p) == Text.ToLower(w)
    decreases |pieces|
  {
    if |pieces[0]| > 3 && w == Text.Capitalize(pieces[0]) {
      CapitalizeSameLetters(pieces[0]);
    } else {
      PieceWordsCapitalised(pieces[1..], w);
      var p :| p in pieces[1..] && Text.ToLower(p) == Text.ToLower(w);
      assert p in pieces;
    }
  }

  lemma CapitalizeSameLetters(s: string)
    ensures Text.ToLower(Text.Capitalize(s)) == Text.ToLower(s)
  {
    var c := Text.Capitalize(s);
    forall i | 0 <= i < |s| ensures Text.LowerChar(c[i]) == Text.LowerChar(s[i]) {
    }
  }

  /** `string.replace(new RegExp(word, 'gi'), word)`: every case-insensitive occurrence of
      the word, left to right, is given the word's own capitals. */
  function ReplaceWord(s: string, word: string): (r: string)
    ensures |r| == |s|
    decreases |s|
  {
    if word == [] || |s| < |word| then s
    else if Text.ToLower(s[..|word|]) == Text.ToLower(word) then word + ReplaceWord(s[|word|..], word)
    else [s[0]] + ReplaceWord(s[1..], word)
  }

  lemma ToLowerConcat(a: string, b: string)
    ensures Text.ToLower(a + b) == Text.ToLower(a) + Text.ToLower(b)
  {
  }

  /** The two strings have the same letters at the same places, up to case. */
  ghost predicate SameLetters(a: string, b: string) {
    |a| == |b| && forall i :: 0 <= i < |a| ==> Text.LowerChar(a[i]) == Text.LowerChar(b[i])
  }

  lemma {:induction false} ReplaceWordSameLettersAt(s: string, word: string)
    ensures SameLetters(ReplaceWord(s, word), s)
    decreases |s|
  {
    if word != [] && |s| >= |word| {
      var n := |word|;
      var r := ReplaceWord(s, word);
      if Text.ToLower(s[..n]) == Text.ToLower(word) {
        var rest := s[n..];
        ReplaceWordSameLettersAt(rest, word);
        assert r == word + ReplaceWord(rest, word);
        forall i | 0 <= i < |s| ensures Text.LowerChar(r[i]) == Text.LowerChar(s[i]) {
          if i < n {
            assert Text.ToLower(s[..n])[i] == Text.ToLower(word)[i];
          } else {
            assert r[i] == ReplaceWord(rest, word)[i - n] && s[i] == rest[i - n];
          }
        }
      } else {
        var rest := s[1..];
        ReplaceWordSameLettersAt(rest, word);
        assert r == [s[0]] + ReplaceWord(rest, word);
        forall i | 1 <= i < |s| ensures Text.LowerChar(r[i]) == Text.LowerChar(s[i]) {
          assert r[i] == ReplaceWord(rest, word)[i - 1] && s[i] == rest[i - 1];
        }
      }
    }
  }

  /** Replacing a word changes only the case of letters. */
  lemma ReplaceWordSameLetters(s: string, word: string)
    ensures Text.ToLower(ReplaceWord(s, word)) == Text.ToLower(s)
  {
    ReplaceWordSameLettersAt(s, word);
    var r := ReplaceWord(s, word);
    assert forall i :: 0 <= i < |s| ==> Text.ToLower(r)[i] == Text.ToLower(s)[i];
  }

  /** Every word of the list applied in order. */
  function ReplaceWords(s: string, words: seq<string>): (r: string)
    ensures |r| == |s|
    decreases |words|
  {
    if words == [] then s else ReplaceWords(ReplaceWord(s, words[0]), words[1..])
  }

  lemma {:induction false} ReplaceWordsSameLetters(s: string, words: seq<string>)
    ensures Text.ToLower(ReplaceWords(s, words)) == Text.ToLower(s)
    decreases |words|
  {
    if words != [] {
      ReplaceWordSameLetters(s, words[0]);
      ReplaceWordsSameLetters(ReplaceWord(s, words[0]), words[1..]);
    }
  }

  /** `capitalize(string)`: the words' capitals, then an upper-case first character. The
      empty string has no first character and makes the source throw: `None`. */
  function Capitalize(words: seq<string>, s: string): Option<string> {
    if s == [] then None else Some(Text.UpperFirst(ReplaceWords(s, words)))
  }

  /** Upper-casing the first character changes only the case of a letter. */
  lemma UpperFirstSameLetters(t: string)
    ensures Text.ToLower(Text.UpperFirst(t)) == Text.ToLower(t)
  {
    var r := Text.UpperFirst(t);
    forall i | 0 <= i < |t| ensures Text.LowerChar(r[i]) == Text.LowerChar(t[i]) {
      if i > 0 {
        assert r[i] == r[1..][i - 1] == t[1..][i - 1] == t[i];
      }
    }
  }

  /** Capitalising changes only the case of letters, and makes the first one upper case. */
  lemma CapitalizeSpec(words: seq<string>, s: string)
    ensures Capitalize(words, s).None? <==> s == []
    ensures s != [] ==> |Capitalize(words, s).value| == |s|
    ensures s != [] ==> !Text.IsLower(Capitalize(words, s).value[0])
    ensures s != [] ==> Text.ToLower(Capitalize(words, s).value) == Text.ToLower(s)
  {
    if s != [] {
      var t := ReplaceWords(s, words);
      ReplaceWordsSameLetters(s, words);
      UpperFirstSameLetters(t);
    }
  }

  /** A word placed at the start of the text keeps its own capitals there. */
  lemma ReplaceWordAtStart(word: string, rest: string)
    requires word != []
    ensures ReplaceWord(word + rest, word)[..|word|] == word
  {
    assert (word + rest)[..|word|] == word;
    assert (word + rest)[|word|..] == rest;
  }
}
