/** The statement splitter and body hider over the lexed segments: what the destructive scan gets to read. */
module SqlScanner {
  import opened Wrappers
  import opened SqlLexer

  type Statement = seq<Segment>

  // ---------------------------------------------------------------- the three head patterns

  /** White space as a JavaScript regular expression reads it. */
  predicate IsSpace(c: char) {
    var n := c as int;
    || 9 <= n <= 13 || n == 32 || n == 0xa0 || n == 0x1680 || 0x2000 <= n <= 0x200a
    || n == 0x2028 || n == 0x2029 || n == 0x202f || n == 0x205f || n == 0x3000 || n == 0xfeff
  }

  predicate IsWordChar(c: char) { 'a' <= c <= 'z' || 'A' <= c <= 'Z' || '0' <= c <= '9' || c == '_' }

  function Upper(c: char): char { if 'a' <= c <= 'z' then ((c as int) - 32) as char else c }

  function SkipSpace(t: string, i: nat): (j: nat)
    requires i <= |t|
    ensures i <= j <= |t|
    decreases |t| - i
  {
    if i < |t| && IsSpace(t[i]) then SkipSpace(t, i + 1) else i
  }

  predicate WordAt(t: string, i: nat, word: string) {
    i + |word| <= |t| && forall k :: 0 <= k < |word| ==> Upper(t[i + k]) == word[k]
  }

  const LOWER := "abcdefghijklmnopqrstuvwxyz"
  const UPPER := "ABCDEFGHIJKLMNOPQRSTUVWXYZ"
  const BLANKS := "\t\n\U{000B}\U{000C}\r \U{00A0}\U{1680}\U{2000}\U{2001}\U{2002}\U{2003}\U{2004}\U{2005}\U{2006}\U{2007}\U{2008}\U{2009}\U{200A}\U{2028}\U{2029}\U{202F}\U{205F}\U{3000}\U{FEFF}"

  /** The classes of characters the patterns use, listed. */
  lemma CharactersExactly(c: char)
    ensures IsSpace(c) <==> c in BLANKS
    ensures IsWordChar(c) <==> c in LOWER || c in UPPER || c in "0123456789_"
    ensures c !in LOWER ==> Upper(c) == c
    ensures forall i :: 0 <= i < 26 ==> Upper(LOWER[i]) == UPPER[i]
  {
    SpacesExactly(c);
    LettersInOrder();
    RunExactly(LOWER, 97, c);
    RunExactly(UPPER, 65, c);
    DigitsExactly(c);
  }

  lemma RunExactly(s: string, first: int, c: char)
    requires forall i :: 0 <= i < |s| ==> s[i] as int == first + i
    ensures c in s <==> first <= c as int < first + |s|
  {
    if first <= c as int < first + |s| {
      assert s[c as int - first] == c;
    }
  }

  lemma LettersInOrder()
    ensures |LOWER| == 26 && forall i :: 0 <= i < 26 ==> LOWER[i] as int == 97 + i
    ensures |UPPER| == 26 && forall i :: 0 <= i < 26 ==> UPPER[i] as int == 65 + i
  {
  }

  lemma DigitsExactly(c: char)
    ensures c in "0123456789_" <==> '0' <= c <= '9' || c == '_'
  {
    assert forall i :: 0 <= i < 10 ==> "0123456789_"[i] as int == 48 + i;
    if '0' <= c <= '9' {
      assert "0123456789_"[c as int - 48] == c;
    }
    assert "0123456789_"[10] == '_';
  }

  lemma SpacesExactly(c: char)
    ensures IsSpace(c) <==> c in BLANKS
  {
    var n := c as int;
    if 9 <= n <= 13 {
      assert BLANKS[n - 9] == c;
    } else if 0x2000 <= n <= 0x200a {
      assert BLANKS[n - 0x2000 + 8] == c;
    }
    assert BLANKS[5] as int == 32 && BLANKS[6] as int == 0xa0 && BLANKS[7] as int == 0x1680;
    assert BLANKS[19] as int == 0x2028 && BLANKS[20] as int == 0x2029 && BLANKS[21] as int == 0x202f;
    assert BLANKS[22] as int == 0x205f && BLANKS[23] as int == 0x3000 && BLANKS[24] as int == 0xfeff;
  }

  /** Just past `word` and the blanks that must follow it. */
  function AfterWord(t: string, i: Option<nat>, word: string): (r: Option<nat>)
    ensures r.Some? ==> r.value <= |t|
  {
    if i.Some? && WordAt(t, i.value, word) && SkipSpace(t, i.value + |word|) > i.value + |word|
    then Some(SkipSpace(t, i.value + |word|)) else None
  }

  function NameEnd(t: string, i: nat): (j: nat)
    requires i <= |t|
    ensures i <= j <= |t|
    decreases |t| - i
  {
    if i < |t| && IsWordChar(t[i]) then NameEnd(t, i + 1) else i
  }

  function AfterName(t: string, i: Option<nat>): (r: Option<nat>)
    ensures r.Some? ==> r.value <= |t|
  {
    if i.Some? && i.value < |t| && IsWordChar(t[i.value]) && !('0' <= t[i.value] <= '9') then
      var e := NameEnd(t, i.value);
      if SkipSpace(t, e) > e then Some(SkipSpace(t, e)) else None
    else None
  }

  function AfterCreate(t: string): Option<nat> { AfterWord(t, Some(SkipSpace(t, 0)), "CREATE") }

  function AfterReplace(t: string): Option<nat> { AfterWord(t, AfterWord(t, AfterCreate(t), "OR"), "REPLACE") }

  predicate IsFunctionAt(t: string, i: nat) { WordAt(t, i, "FUNCTION") && (i + 8 < |t| ==> !IsWordChar(t[i + 8])) }

  /** CREATE [OR REPLACE] FUNCTION at the start of the text. */
  predicate IsFunctionHead(t: string) {
    var f := if AfterReplace(t).Some? then AfterReplace(t) else AfterCreate(t);
    f.Some? && IsFunctionAt(t, f.value)
  }

  function TrimEnd(t: string): string { if t != "" && IsSpace(t[|t| - 1]) then TrimEnd(t[..|t| - 1]) else t }

  /** The text ends with the keyword AS, blanks aside. */
  predicate EndsWithAs(t: string) {
    var s := TrimEnd(t);
    |s| >= 2 && WordAt(s, |s| - 2, "AS") && !(|s| >= 3 && IsIdentChar(s[|s| - 3]))
  }

  function AfterAlterTable(t: string): Option<nat> {
    AfterName(t, AfterWord(t, AfterWord(t, Some(SkipSpace(t, 0)), "ALTER"), "TABLE"))
  }

  function AfterAlterColumn(t: string): Option<nat> { AfterName(t, AfterWord(t, AfterWord(t, AfterAlterTable(t), "ALTER"), "COLUMN")) }

  function AfterDropNot(t: string): Option<nat> { AfterWord(t, AfterWord(t, AfterAlterColumn(t), "DROP"), "NOT") }

  predicate IsNullAtEnd(t: string, i: nat) { WordAt(t, i, "NULL") && SkipSpace(t, i + 4) == |t| }

  /** A whole standalone ALTER TABLE name ALTER COLUMN name DROP NOT NULL. */
  predicate IsDropNotNull(t: string) { AfterDropNot(t).Some? && IsNullAtEnd(t, AfterDropNot(t).value) }

  // ---------------------------------------------------------------- what the patterns mean, word by word

  function WordEnd(t: string, i: nat): (e: nat)
    requires i <= |t|
    ensures i <= e <= |t| && (forall k :: i <= k < e ==> !IsSpace(t[k])) && (e < |t| ==> IsSpace(t[e]))
    decreases |t| - i
  {
    if i < |t| && !IsSpace(t[i]) then WordEnd(t, i + 1) else i
  }

  /** Where word number `k` of the text starts; the end of the text when there are fewer words. */
  function WordStart(t: string, k: nat): (i: nat)
    ensures i <= |t|
  {
    if k == 0 then SkipSpace(t, 0) else SkipSpace(t, WordEnd(t, WordStart(t, k - 1)))
  }

  lemma {:induction false} SpaceEnds(t: string, i: nat)
    requires i <= |t|
    ensures SkipSpace(t, i) < |t| ==> !IsSpace(t[SkipSpace(t, i)]) && WordEnd(t, SkipSpace(t, i)) > SkipSpace(t, i)
    ensures SkipSpace(t, SkipSpace(t, i)) == SkipSpace(t, i)
    decreases |t| - i
  {
    if i < |t| && IsSpace(t[i]) {
      SpaceEnds(t, i + 1);
    }
  }

  predicate IsWord(t: string, w: (nat, nat), word: string) {
    w.0 <= w.1 <= |t| && w.1 - w.0 == |word| && WordAt(t, w.0, word)
  }

  predicate IsName(t: string, w: (nat, nat)) {
    w.0 < w.1 <= |t| && !('0' <= t[w.0] <= '9') && forall k :: w.0 <= k < w.1 ==> IsWordChar(t[k])
  }

  lemma WordHasNoSpace(t: string, i: nat, word: string)
    requires WordAt(t, i, word) && forall c :: c in word ==> 'A' <= c <= 'Z'
    ensures forall k :: i <= k < i + |word| ==> !IsSpace(t[k])
  {
    forall k | i <= k < i + |word| ensures !IsSpace(t[k]) {
      assert Upper(t[i + (k - i)]) == word[k - i] && word[k - i] in word;
    }
  }

  lemma {:induction false} WordEndIs(t: string, i: nat, e: nat)
    requires i <= e <= |t| && (forall k :: i <= k < e ==> !IsSpace(t[k])) && (e < |t| ==> IsSpace(t[e]))
    ensures WordEnd(t, i) == e
    decreases e - i
  {
    if i < e {
      WordEndIs(t, i + 1, e);
    }
  }

  /** Stepping over a keyword and its blanks is taking the next word, when more words follow. */
  lemma AfterWordIsNextWord(t: string, i: nat, word: string)
    requires i < |t| && !IsSpace(t[i]) && word != "" && forall c :: c in word ==> 'A' <= c <= 'Z'
    ensures AfterWord(t, Some(i), word).Some? <==> IsWord(t, (i, WordEnd(t, i)), word) && WordEnd(t, i) < |t|
    ensures AfterWord(t, Some(i), word).Some? ==> AfterWord(t, Some(i), word).value == SkipSpace(t, WordEnd(t, i))
  {
    var e := i + |word|;
    if WordAt(t, i, word) {
      WordHasNoSpace(t, i, word);
      if e == |t| || IsSpace(t[e]) {
        WordEndIs(t, i, e);
      }
    }
  }

  lemma {:induction false} NameEndIs(t: string, i: nat)
    requires i <= |t|
    ensures forall k :: i <= k < NameEnd(t, i) ==> IsWordChar(t[k])
    ensures NameEnd(t, i) < |t| ==> !IsWordChar(t[NameEnd(t, i)])
    decreases |t| - i
  {
    if i < |t| && IsWordChar(t[i]) {
      NameEndIs(t, i + 1);
    }
  }

  lemma AfterNameIsNextWord(t: string, i: nat)
    requires i < |t| && !IsSpace(t[i])
    ensures AfterName(t, Some(i)).Some? <==> IsName(t, (i, WordEnd(t, i))) && WordEnd(t, i) < |t|
    ensures AfterName(t, Some(i)).Some? ==> AfterName(t, Some(i)).value == SkipSpace(t, WordEnd(t, i))
  {
    NameEndIs(t, i);
    var e, w := NameEnd(t, i), WordEnd(t, i);
    if IsWordChar(t[i]) {
      if e == |t| || IsSpace(t[e]) {
        WordEndIs(t, i, e);
      } else if e < w {
        assert !IsWordChar(t[e]);
      }
    }
  }

  /** Word `k` is the keyword, in whatever case. */
  predicate WordIs(t: string, k: nat, word: string) { WordStart(t, k) < |t| && IsWord(t, (WordStart(t, k), WordEnd(t, WordStart(t, k))), word) }

  predicate NameIs(t: string, k: nat) { WordStart(t, k) < |t| && IsName(t, (WordStart(t, k), WordEnd(t, WordStart(t, k)))) }

  lemma StartsAtWord(t: string, k: nat)
    ensures WordStart(t, k) < |t| ==> !IsSpace(t[WordStart(t, k)])
    ensures WordStart(t, k + 1) < |t| ==> WordEnd(t, WordStart(t, k)) < |t|
  {
    SpaceEnds(t, if k == 0 then 0 else WordEnd(t, WordStart(t, k - 1)));
  }

  /** `o` points at word `k` exactly when `ok`; at the end of the text it counts as pointing nowhere. */
  predicate Upto(t: string, k: nat, o: Option<nat>, ok: bool) {
    ok == (o.Some? && o.value < |t|) && (ok ==> o.value == WordStart(t, k))
  }

  predicate Exists(t: string, k: nat) { WordStart(t, k) < |t| }

  lemma KeywordStep(t: string, k: nat, o: Option<nat>, ok: bool, word: string)
    requires Upto(t, k, o, ok) && word != "" && forall c :: c in word ==> 'A' <= c <= 'Z'
    ensures Upto(t, k + 1, AfterWord(t, o, word), ok && WordIs(t, k, word) && Exists(t, k + 1))
  {
    StartsAtWord(t, k);
    if ok {
      AfterWordIsNextWord(t, WordStart(t, k), word);
    }
  }

  lemma NameStep(t: string, k: nat, o: Option<nat>, ok: bool)
    requires Upto(t, k, o, ok)
    ensures Upto(t, k + 1, AfterName(t, o), ok && NameIs(t, k) && Exists(t, k + 1))
  {
    StartsAtWord(t, k);
    if ok {
      AfterNameIsNextWord(t, WordStart(t, k));
    }
  }

  lemma WordExists(t: string, k: nat, word: string)
    ensures WordIs(t, k, word) || NameIs(t, k) ==> Exists(t, k)
  {
  }

  lemma AlterTableWords(t: string)
    ensures Upto(t, 3, AfterAlterTable(t), WordIs(t, 0, "ALTER") && WordIs(t, 1, "TABLE") && NameIs(t, 2) && Exists(t, 3))
  {
    var o, ok := Some(SkipSpace(t, 0)), Exists(t, 0);
    KeywordStep(t, 0, o, ok, "ALTER");
    KeywordStep(t, 1, AfterWord(t, o, "ALTER"), ok && WordIs(t, 0, "ALTER") && Exists(t, 1), "TABLE");
    NameStep(t, 2, AfterWord(t, AfterWord(t, o, "ALTER"), "TABLE"), ok && WordIs(t, 0, "ALTER") && Exists(t, 1) && WordIs(t, 1, "TABLE") && Exists(t, 2));
  }

  lemma AlterColumnWords(t: string, ok: bool)
    requires Upto(t, 3, AfterAlterTable(t), ok)
    ensures Upto(t, 6, AfterAlterColumn(t), ok && WordIs(t, 3, "ALTER") && WordIs(t, 4, "COLUMN") && NameIs(t, 5) && Exists(t, 6))
  {
    var o := AfterAlterTable(t);
    KeywordStep(t, 3, o, ok, "ALTER");
    KeywordStep(t, 4, AfterWord(t, o, "ALTER"), ok && WordIs(t, 3, "ALTER") && Exists(t, 4), "COLUMN");
    NameStep(t, 5, AfterWord(t, AfterWord(t, o, "ALTER"), "COLUMN"), ok && WordIs(t, 3, "ALTER") && Exists(t, 4) && WordIs(t, 4, "COLUMN") && Exists(t, 5));
  }

  lemma DropNotWords(t: string, ok: bool)
    requires Upto(t, 6, AfterAlterColumn(t), ok)
    ensures Upto(t, 8, AfterDropNot(t), ok && WordIs(t, 6, "DROP") && WordIs(t, 7, "NOT") && Exists(t, 8))
  {
    KeywordStep(t, 6, AfterAlterColumn(t), ok, "DROP");
    KeywordStep(t, 7, AfterWord(t, AfterAlterColumn(t), "DROP"), ok && WordIs(t, 6, "DROP") && Exists(t, 7), "NOT");
  }

  lemma NullAtEnd(t: string, i: nat, e: nat)
    requires i < |t| && e == WordEnd(t, i)
    ensures IsNullAtEnd(t, i) <==> IsWord(t, (i, e), "NULL") && SkipSpace(t, e) == |t|
  {
    if WordAt(t, i, "NULL") {
      WordHasNoSpace(t, i, "NULL");
      if i + 4 == |t| || IsSpace(t[i + 4]) {
        WordEndIs(t, i, i + 4);
      }
    }
  }

  lemma NullIsLast(t: string, o: Option<nat>, ok: bool)
    requires Upto(t, 8, o, ok)
    ensures o.Some? && IsNullAtEnd(t, o.value) <==> ok && WordIs(t, 8, "NULL") && WordStart(t, 9) == |t|
  {
    if ok {
      NullAtEnd(t, o.value, WordEnd(t, o.value));
    } else {
      assert o.Some? ==> o.value + 4 > |t|;
    }
  }

  predicate AlterTableAt(t: string) { WordIs(t, 0, "ALTER") && WordIs(t, 1, "TABLE") && NameIs(t, 2) }

  predicate AlterColumnAt(t: string) { WordIs(t, 3, "ALTER") && WordIs(t, 4, "COLUMN") && NameIs(t, 5) }

  predicate DropNotNullAt(t: string) { WordIs(t, 6, "DROP") && WordIs(t, 7, "NOT") && WordIs(t, 8, "NULL") && WordStart(t, 9) == |t| }

  /** The exempted statement is exactly nine words, ALTER TABLE name ALTER COLUMN name DROP NOT NULL, and nothing after them. */
  lemma DropNotNullWordByWord(t: string)
    ensures IsDropNotNull(t) <==> AlterTableAt(t) && AlterColumnAt(t) && DropNotNullAt(t)
  {
    var table := AlterTableAt(t) && Exists(t, 3);
    var column := table && AlterColumnAt(t) && Exists(t, 6);
    var drop := column && WordIs(t, 6, "DROP") && WordIs(t, 7, "NOT") && Exists(t, 8);
    AlterTableWords(t);
    AlterColumnWords(t, table);
    DropNotWords(t, column);
    NullIsLast(t, AfterDropNot(t), drop);
    WordExists(t, 3, "ALTER");
    WordExists(t, 6, "DROP");
    WordExists(t, 8, "NULL");
  }

  lemma CreateWord(t: string)
    ensures Upto(t, 1, AfterCreate(t), WordIs(t, 0, "CREATE") && Exists(t, 1))
  {
    KeywordStep(t, 0, Some(SkipSpace(t, 0)), Exists(t, 0), "CREATE");
    WordExists(t, 0, "CREATE");
  }

  lemma OrReplaceWords(t: string, o: Option<nat>, create: bool)
    requires Upto(t, 1, o, create)
    ensures Upto(t, 3, AfterWord(t, AfterWord(t, o, "OR"), "REPLACE"), create && WordIs(t, 1, "OR") && WordIs(t, 2, "REPLACE") && Exists(t, 3))
  {
    KeywordStep(t, 1, o, create, "OR");
    KeywordStep(t, 2, AfterWord(t, o, "OR"), create && WordIs(t, 1, "OR") && Exists(t, 2), "REPLACE");
    WordExists(t, 2, "REPLACE");
  }

  lemma CreateWords(t: string)
    ensures Upto(t, 1, AfterCreate(t), WordIs(t, 0, "CREATE") && Exists(t, 1))
    ensures Upto(t, 3, AfterReplace(t), WordIs(t, 0, "CREATE") && WordIs(t, 1, "OR") && WordIs(t, 2, "REPLACE") && Exists(t, 3))
  {
    CreateWord(t);
    OrReplaceWords(t, AfterCreate(t), WordIs(t, 0, "CREATE") && Exists(t, 1));
    WordExists(t, 1, "OR");
  }

  lemma FunctionExists(t: string, i: nat)
    ensures IsFunctionAt(t, i) ==> i < |t| && Upper(t[i]) == 'F'
  {
    assert IsFunctionAt(t, i) ==> Upper(t[i + 0]) == "FUNCTION"[0];
  }

  /** A second word OR cannot be the keyword itself. */
  lemma OrIsNotFunction(t: string)
    ensures WordIs(t, 1, "OR") ==> !IsFunctionAt(t, WordStart(t, 1))
  {
    FunctionExists(t, WordStart(t, 1));
    assert WordIs(t, 1, "OR") ==> Upper(t[WordStart(t, 1) + 0]) == "OR"[0];
  }

  /** FUNCTION stands at `i`, in any case of its letters, and no character of a word right after it. */
  predicate FunctionStands(t: string, i: nat) {
    && i + 8 <= |t| && (forall k :: 0 <= k < 8 ==> Upper(t[i + k]) == "FUNCTION"[k])
    && (i + 8 < |t| ==> t[i + 8] !in LOWER && t[i + 8] !in UPPER && t[i + 8] !in "0123456789_")
  }

  lemma FunctionStandsExactly(t: string, i: nat)
    ensures IsFunctionAt(t, i) <==> FunctionStands(t, i)
  {
    if i + 8 < |t| {
      CharactersExactly(t[i + 8]);
    }
  }

  /** The head of a function is CREATE, or CREATE OR REPLACE, and then the keyword FUNCTION as a whole identifier. */
  lemma FunctionHeadWordByWord(t: string)
    ensures IsFunctionHead(t) <==>
            WordIs(t, 0, "CREATE") && FunctionStands(t, WordStart(t, if WordIs(t, 1, "OR") && WordIs(t, 2, "REPLACE") then 3 else 1))
  {
    FunctionStandsExactly(t, WordStart(t, if WordIs(t, 1, "OR") && WordIs(t, 2, "REPLACE") then 3 else 1));
    CreateWords(t);
    OrIsNotFunction(t);
    FunctionExists(t, WordStart(t, 1));
    FunctionExists(t, WordStart(t, 3));
    if AfterCreate(t).Some? {
      FunctionExists(t, AfterCreate(t).value);
    }
    if AfterReplace(t).Some? {
      FunctionExists(t, AfterReplace(t).value);
      ReplaceNeedsCreate(t);
    }
  }

  lemma FoundWordIsThere(t: string, k: nat, o: Option<nat>, ok: bool, word: string)
    requires Upto(t, k, o, ok) && word != "" && (forall c :: c in word ==> 'A' <= c <= 'Z') && AfterWord(t, o, word).Some?
    ensures ok && WordIs(t, k, word)
  {
    StartsAtWord(t, k);
    AfterWordIsNextWord(t, WordStart(t, k), word);
  }

  lemma ReplaceNeedsCreate(t: string)
    requires AfterReplace(t).Some?
    ensures WordIs(t, 0, "CREATE") && WordIs(t, 1, "OR") && WordIs(t, 2, "REPLACE")
  {
    CreateWord(t);
    ReplaceNeedsOr(t, AfterCreate(t), WordIs(t, 0, "CREATE") && Exists(t, 1));
  }

  lemma ReplaceNeedsOr(t: string, o: Option<nat>, create: bool)
    requires Upto(t, 1, o, create) && AfterWord(t, AfterWord(t, o, "OR"), "REPLACE").Some?
    ensures create && WordIs(t, 1, "OR") && WordIs(t, 2, "REPLACE")
  {
    KeywordStep(t, 1, o, create, "OR");
    FoundWordIsThere(t, 2, AfterWord(t, o, "OR"), create && WordIs(t, 1, "OR") && Exists(t, 2), "REPLACE");
  }

  lemma {:induction false} TrimEndIs(t: string, n: nat)
    requires n <= |t| && (forall k :: n <= k < |t| ==> IsSpace(t[k])) && (n > 0 ==> !IsSpace(t[n - 1]))
    ensures TrimEnd(t) == t[..n]
  {
    if n < |t| {
      TrimEndIs(t[..|t| - 1], n);
      assert t[..|t| - 1][..n] == t[..n];
    } else {
      assert t[..n] == t;
    }
  }

  lemma {:induction false} TrimEndStops(t: string) returns (n: nat)
    ensures n <= |t| && (forall k :: n <= k < |t| ==> IsSpace(t[k])) && (n > 0 ==> !IsSpace(t[n - 1])) && TrimEnd(t) == t[..n]
  {
    if t != "" && IsSpace(t[|t| - 1]) {
      n := TrimEndStops(t[..|t| - 1]);
      assert t[..|t| - 1][..n] == t[..n];
    } else {
      n := |t|;
      assert t[..n] == t;
    }
  }

  /** The words A S stand at `n`, in either case, as a whole word, with nothing but blanks after them. */
  predicate AsStandsLast(t: string, n: int) {
    && 0 <= n && n + 2 <= |t| && (t[n] == 'a' || t[n] == 'A') && (t[n + 1] == 's' || t[n + 1] == 'S')
    && (n > 0 ==> !ContinuesName(t[n - 1]))
    && forall k :: n + 2 <= k < |t| ==> IsSpace(t[k])
  }

  ghost predicate EndsInAs(t: string) { exists n :: AsStandsLast(t, n) }

  /** The text before a body that may be hidden ends with the whole word AS, blanks aside. */
  lemma AsWordByWord(t: string)
    ensures EndsWithAs(t) <==> EndsInAs(t)
  {
    var m := TrimEndStops(t);
    if EndsWithAs(t) {
      var s := t[..m];
      assert Upper(s[|s| - 2 + 0]) == "AS"[0] && Upper(s[|s| - 2 + 1]) == "AS"[1];
      assert AsStandsLast(t, m - 2);
    }
    if exists n :: AsStandsLast(t, n) {
      var n :| AsStandsLast(t, n);
      TrimEndIs(t, n + 2);
      var s := t[..n + 2];
      assert WordAt(s, n, "AS") by {
        assert Upper(s[n + 0]) == "AS"[0] && Upper(s[n + 1]) == "AS"[1];
      }
    }
  }

  // ---------------------------------------------------------------- splitting and joining at ';'

  predicate NoSemicolon(t: string) { ';' !in t }

  function Split(t: string): (ps: seq<string>)
    ensures ps != []
  {
    if t == "" then [""]
    else
      var rest := Split(t[1..]);
      if t[0] == ';' then [""] + rest else [[t[0]] + rest[0]] + rest[1..]
  }

  function Join(ps: seq<string>): string
    requires ps != []
  {
    if |ps| == 1 then ps[0] else ps[0] + ";" + Join(ps[1..])
  }

  lemma {:induction false} SplitPrefix(p: string, t: string)
    requires NoSemicolon(p)
    ensures Split(p + t) == [p + Split(t)[0]] + Split(t)[1..]
  {
    if p == "" {
      assert p + t == t && p + Split(t)[0] == Split(t)[0];
      assert Split(t) == [Split(t)[0]] + Split(t)[1..];
    } else {
      assert (p + t)[1..] == p[1..] + t;
      SplitPrefix(p[1..], t);
      assert [p[0]] + (p[1..] + Split(t)[0]) == p + Split(t)[0];
    }
  }

  /** Splitting what was joined gives the parts back, as long as no part holds a separator. */
  lemma {:induction false} SplitJoin(ps: seq<string>)
    requires ps != [] && forall p :: p in ps ==> NoSemicolon(p)
    ensures Split(Join(ps)) == ps
  {
    if |ps| == 1 {
      SplitPrefix(ps[0], "");
      assert ps[0] + "" == ps[0];
    } else {
      SplitJoin(ps[1..]);
      var t := ";" + Join(ps[1..]);
      assert t[1..] == Join(ps[1..]);
      SplitPrefix(ps[0], t);
      assert ps[0] + ";" + Join(ps[1..]) == ps[0] + t;
      assert ps[0] + "" == ps[0];
    }
  }

  lemma {:induction false} JoinSplit(t: string)
    ensures Join(Split(t)) == t
    ensures forall p :: p in Split(t) ==> NoSemicolon(p)
  {
    if t != "" {
      JoinSplit(t[1..]);
      var rest := Split(t[1..]);
      var ps := Split(t);
      if t[0] == ';' {
        assert ps[1..] == rest;
        assert "" + ";" + Join(rest) == t;
      } else {
        assert rest[0] in rest && NoSemicolon(rest[0]);
        assert ps[0] == [t[0]] + rest[0] && ps[1..] == rest[1..];
        forall c | c in ps[0] ensures c != ';' {
          assert c == t[0] || c in rest[0];
        }
        forall p | p in ps ensures NoSemicolon(p) {
          assert p == ps[0] || p in rest;
        }
        assert t == [t[0]] + t[1..] && ps[0] == [t[0]] + rest[0];
        if |rest| > 1 {
          assert ([t[0]] + rest[0]) + ";" + Join(rest[1..]) == [t[0]] + (rest[0] + ";" + Join(rest[1..]));
        } else {
          assert |ps| == 1 && rest[0] == t[1..];
        }
      }
    }
  }

  // ---------------------------------------------------------------- statements

  function CodePart(p: string): Statement { if p == "" then [] else [Segment(Code, p, "", true)] }

  /** The statements that the parts of one code segment complete, when `current` is the statement being gathered. */
  function Completed(parts: seq<string>, current: Statement): seq<Statement>
    requires parts != []
  {
    if |parts| == 1 then [] else [current + CodePart(parts[0])] + Completed(parts[1..], [])
  }

  function Remaining(parts: seq<string>, current: Statement): Statement
    requires parts != []
  {
    if |parts| == 1 then current + CodePart(parts[0]) else Remaining(parts[1..], [])
  }

  function Statements(gs: seq<Segment>, current: Statement): (r: seq<Statement>)
    ensures r != []
    decreases |gs|
  {
    if gs == [] then [current]
    else if gs[0].kind != Code then Statements(gs[1..], current + [gs[0]])
    else
      var parts := Split(gs[0].text);
      Completed(parts, current) + Statements(gs[1..], Remaining(parts, current))
  }

  function Raws(stmts: seq<Statement>): (r: seq<string>)
    ensures |r| == |stmts|
  {
    if stmts == [] then [] else [Joined(stmts[0])] + Raws(stmts[1..])
  }

  predicate CodeIsSplit(stmt: Statement) { forall g :: g in stmt && g.kind == Code ==> NoSemicolon(g.text) }

  lemma JoinedSnoc(current: Statement, g: Segment)
    ensures Joined(current + [g]) == Joined(current) + g.text
  {
    JoinedAppend(current, [g]);
    assert Joined([g]) == g.text + Joined([]);
  }

  lemma JoinedPart(current: Statement, p: string)
    ensures Joined(current + CodePart(p)) == Joined(current) + p
  {
    if p == "" {
      assert current + CodePart(p) == current && Joined(current) + p == Joined(current);
    } else {
      JoinedSnoc(current, Segment(Code, p, "", true));
    }
  }

  lemma RawsCons(stmt: Statement, stmts: seq<Statement>)
    requires stmts != []
    ensures Join(Raws([stmt] + stmts)) == Joined(stmt) + ";" + Join(Raws(stmts))
  {
    assert ([stmt] + stmts)[1..] == stmts;
    assert Raws([stmt] + stmts)[1..] == Raws(stmts);
  }

  lemma RegroupParts(a: string, b: string, c: string, d: string)
    ensures (a + b) + ";" + (c + d) == a + (b + ";" + c) + d
  {
  }

  lemma {:induction false} PartsRaw(parts: seq<string>, current: Statement, tail: seq<Statement>, rest: string)
    requires parts != [] && tail != []
    requires Join(Raws(tail)) == Joined(Remaining(parts, current)) + rest
    ensures Join(Raws(Completed(parts, current) + tail)) == Joined(current) + Join(parts) + rest
  {
    JoinedPart(current, parts[0]);
    if |parts| == 1 {
      assert Completed(parts, current) + tail == tail;
    } else {
      PartsRaw(parts[1..], [], tail, rest);
      var first, others := current + CodePart(parts[0]), Completed(parts[1..], []) + tail;
      assert Completed(parts, current) + tail == [first] + others;
      RawsCons(first, others);
      assert Joined([]) + Join(parts[1..]) == Join(parts[1..]);
      RegroupParts(Joined(current), parts[0], Join(parts[1..]), rest);
    }
  }

  /** The statements, put back together with ';', are the comment-stripped text: nothing is lost and only top-level ';' separate. */
  lemma {:induction false} StatementsPartitionText(gs: seq<Segment>, current: Statement)
    ensures Join(Raws(Statements(gs, current))) == Joined(current) + Joined(gs)
    decreases |gs|
  {
    if gs == [] {
      assert Raws([current]) == [Joined(current)];
      assert Joined(current) + Joined(gs) == Joined(current);
    } else if gs[0].kind != Code {
      StatementsPartitionText(gs[1..], current + [gs[0]]);
      JoinedSnoc(current, gs[0]);
      assert (Joined(current) + gs[0].text) + Joined(gs[1..]) == Joined(current) + (gs[0].text + Joined(gs[1..]));
    } else {
      var parts := Split(gs[0].text);
      JoinSplit(gs[0].text);
      StatementsPartitionText(gs[1..], Remaining(parts, current));
      PartsRaw(parts, current, Statements(gs[1..], Remaining(parts, current)), Joined(gs[1..]));
      assert Joined(current) + gs[0].text + Joined(gs[1..]) == Joined(current) + (gs[0].text + Joined(gs[1..]));
    }
  }

  lemma {:induction false} PartsAreSplit(parts: seq<string>, current: Statement)
    requires parts != [] && CodeIsSplit(current) && forall p :: p in parts ==> NoSemicolon(p)
    ensures CodeIsSplit(Remaining(parts, current))
    ensures forall stmt :: stmt in Completed(parts, current) ==> CodeIsSplit(stmt)
  {
    if |parts| > 1 {
      PartsAreSplit(parts[1..], []);
      assert CodeIsSplit(current + CodePart(parts[0]));
    }
  }

  lemma {:induction false} StatementsAreSplit(gs: seq<Segment>, current: Statement)
    requires CodeIsSplit(current)
    ensures forall stmt :: stmt in Statements(gs, current) ==> CodeIsSplit(stmt)
    decreases |gs|
  {
    if gs != [] {
      if gs[0].kind != Code {
        StatementsAreSplit(gs[1..], current + [gs[0]]);
      } else {
        var parts := Split(gs[0].text);
        JoinSplit(gs[0].text);
        PartsAreSplit(parts, current);
        StatementsAreSplit(gs[1..], Remaining(parts, current));
      }
    }
  }

  // ---------------------------------------------------------------- what the scan reads

  function Flat(t: string): string { seq(|t|, i requires 0 <= i < |t| => if t[i] == ';' then ' ' else t[i]) }

  predicate IsAsBody(stmt: Statement, k: nat) {
    0 < k < |stmt| && stmt[k].kind == Dollar && stmt[k].closed && stmt[k - 1].kind == Code && EndsWithAs(stmt[k - 1].text)
  }

  predicate IsFunction(stmt: Statement) { stmt != [] && stmt[0].kind == Code && IsFunctionHead(stmt[0].text) }

  /** The text of the segments from `k` on; `bodyOpen` says an AS body may still be hidden. */
  function TextFrom(stmt: Statement, k: nat, bodyOpen: bool): string
    requires k <= |stmt|
    decreases |stmt| - k
  {
    if k == |stmt| then ""
    else if stmt[k].kind == Code then stmt[k].text + TextFrom(stmt, k + 1, bodyOpen)
    else if bodyOpen && IsAsBody(stmt, k) then " " + TextFrom(stmt, k + 1, false)
    else Flat(stmt[k].text) + TextFrom(stmt, k + 1, bodyOpen)
  }

  function ScannedText(stmt: Statement, hideBodies: bool): string {
    var text := TextFrom(stmt, 0, hideBodies && IsFunction(stmt));
    if IsDropNotNull(text) then "" else text
  }

  function ScannedTexts(stmts: seq<Statement>, hideBodies: bool): (r: seq<string>)
    ensures |r| == |stmts|
    ensures forall k :: 0 <= k < |stmts| ==> r[k] == ScannedText(stmts[k], hideBodies)
  {
    if stmts == [] then [] else [ScannedText(stmts[0], hideBodies)] + ScannedTexts(stmts[1..], hideBodies)
  }

  function Less(hidden: Option<nat>, k: nat): Option<nat> { if hidden.Some? && hidden.value >= k then Some(hidden.value - k) else None }

  /** The statement with its literal semicolons blanked and, when `hidden` is an index, that one segment replaced by a blank. */
  function Blanked(stmt: Statement, hidden: Option<nat>): string {
    if stmt == [] then ""
    else (if hidden == Some(0) then " " else if stmt[0].kind == Code then stmt[0].text else Flat(stmt[0].text))
         + Blanked(stmt[1..], Less(hidden, 1))
  }

  /** A closed dollar quote right behind code that ends with the word AS. */
  ghost predicate BodyStands(stmt: Statement, k: nat) {
    0 < k < |stmt| && stmt[k].kind == Dollar && stmt[k].closed && stmt[k - 1].kind == Code && EndsInAs(stmt[k - 1].text)
  }

  /** The statement begins with CREATE FUNCTION or CREATE OR REPLACE FUNCTION. */
  predicate FunctionOpens(stmt: Statement) {
    && stmt != [] && stmt[0].kind == Code
    && var t := stmt[0].text;
       WordIs(t, 0, "CREATE") && FunctionStands(t, WordStart(t, if WordIs(t, 1, "OR") && WordIs(t, 2, "REPLACE") then 3 else 1))
  }

  lemma BodyExactly(stmt: Statement)
    ensures IsFunction(stmt) <==> FunctionOpens(stmt)
    ensures forall k: nat :: IsAsBody(stmt, k) <==> BodyStands(stmt, k)
  {
    if stmt != [] {
      FunctionHeadWordByWord(stmt[0].text);
    }
    forall k: nat ensures IsAsBody(stmt, k) <==> BodyStands(stmt, k) {
      if 0 < k < |stmt| {
        AsWordByWord(stmt[k - 1].text);
      }
    }
  }

  /** The one segment that may be hidden: the first closed AS body of a CREATE FUNCTION. */
  ghost predicate IsHidden(stmt: Statement, hideBodies: bool, hidden: Option<nat>) {
    match hidden
    case None => !hideBodies || !FunctionOpens(stmt) || forall k: nat :: !BodyStands(stmt, k)
    case Some(k) => hideBodies && FunctionOpens(stmt) && BodyStands(stmt, k) && forall m: nat :: m < k ==> !BodyStands(stmt, m)
  }

  lemma BlankedStep(stmt: Statement, k: nat, hidden: Option<nat>)
    requires k < |stmt|
    ensures Blanked(stmt[k..], Less(hidden, k)) ==
            (if hidden == Some(k) then " " else if stmt[k].kind == Code then stmt[k].text else Flat(stmt[k].text))
            + Blanked(stmt[k + 1..], Less(hidden, k + 1))
  {
    assert stmt[k..][1..] == stmt[k + 1..];
    assert Less(Less(hidden, k), 1) == Less(hidden, k + 1);
  }

  lemma {:induction false} TextFromIsBlanked(stmt: Statement, k: nat, bodyOpen: bool, hidden: Option<nat>)
    requires k <= |stmt|
    requires hidden.Some? ==> IsAsBody(stmt, hidden.value) && forall m: nat :: m < hidden.value ==> !IsAsBody(stmt, m)
    requires bodyOpen == (hidden.Some? && k <= hidden.value) || (bodyOpen && hidden.None? && forall m: nat :: !IsAsBody(stmt, m))
    ensures TextFrom(stmt, k, bodyOpen) == Blanked(stmt[k..], Less(hidden, k))
    decreases |stmt| - k
  {
    if k < |stmt| {
      BlankedStep(stmt, k, hidden);
      if stmt[k].kind != Code && bodyOpen && IsAsBody(stmt, k) {
        TextFromIsBlanked(stmt, k + 1, false, hidden);
      } else {
        TextFromIsBlanked(stmt, k + 1, bodyOpen, hidden);
      }
    }
  }

  lemma FirstBody(stmt: Statement, k: nat) returns (hidden: Option<nat>)
    requires k <= |stmt| && forall m: nat :: m < k ==> !IsAsBody(stmt, m)
    ensures hidden.Some? ==> IsAsBody(stmt, hidden.value) && forall m: nat :: m < hidden.value ==> !IsAsBody(stmt, m)
    ensures hidden.None? ==> forall m: nat :: !IsAsBody(stmt, m)
    decreases |stmt| - k
  {
    if k == |stmt| {
      hidden := None;
    } else if IsAsBody(stmt, k) {
      hidden := Some(k);
    } else {
      hidden := FirstBody(stmt, k + 1);
    }
  }

  /** Exactly what is hidden from one statement: at most one AS body of a CREATE FUNCTION, or a whole standalone DROP NOT NULL. */
  lemma OnlyBodyHidden(stmt: Statement, hideBodies: bool) returns (hidden: Option<nat>)
    ensures IsHidden(stmt, hideBodies, hidden)
    ensures ScannedText(stmt, hideBodies) == if IsDropNotNull(Blanked(stmt, hidden)) then "" else Blanked(stmt, hidden)
  {
    hidden := None;
    BodyExactly(stmt);
    if hideBodies && IsFunction(stmt) {
      hidden := FirstBody(stmt, 0);
    }
    TextFromIsBlanked(stmt, 0, hideBodies && IsFunction(stmt), hidden);
    assert stmt[0..] == stmt;
  }

  lemma {:induction false} BlankedHasNoSemicolon(stmt: Statement, hidden: Option<nat>)
    requires CodeIsSplit(stmt)
    ensures NoSemicolon(Blanked(stmt, hidden))
  {
    if stmt != [] {
      assert stmt[0] in stmt;
      assert NoSemicolon(Flat(stmt[0].text));
      BlankedHasNoSemicolon(stmt[1..], Less(hidden, 1));
    }
  }

  /** Nothing hidden: the blanked text has the statement's own length and differs from it only where a literal holds ';'. */
  lemma {:induction false} BlankedKeepsText(stmt: Statement)
    ensures var b, raw := Blanked(stmt, None), Joined(stmt);
            |b| == |raw| && forall i :: 0 <= i < |raw| ==> b[i] == raw[i] || (raw[i] == ';' && b[i] == ' ')
  {
    if stmt != [] {
      BlankedKeepsText(stmt[1..]);
      var head := if stmt[0].kind == Code then stmt[0].text else Flat(stmt[0].text);
      assert Blanked(stmt, None) == head + Blanked(stmt[1..], None);
    }
  }

  /** What the scan may read for one statement. */
  ghost predicate IsScanned(stmt: Statement, hideBodies: bool, text: string) {
    exists hidden: Option<nat> :: IsHidden(stmt, hideBodies, hidden)
      && text == (if IsDropNotNull(Blanked(stmt, hidden)) then "" else Blanked(stmt, hidden))
  }

  lemma ScannedTextIsScanned(stmt: Statement, hideBodies: bool)
    requires CodeIsSplit(stmt)
    ensures IsScanned(stmt, hideBodies, ScannedText(stmt, hideBodies))
    ensures NoSemicolon(ScannedText(stmt, hideBodies))
  {
    var hidden := OnlyBodyHidden(stmt, hideBodies);
    BlankedHasNoSemicolon(stmt, hidden);
  }

  /**
   * The scanned text hides nothing else. Splitting it at ';' gives one piece per top-level statement, in order, and the statements
   * are the comment-stripped text cut at its top-level semicolons.
   */
  lemma ScannedTextHidesNothingElse(gs: seq<Segment>, hideBodies: bool)
    ensures var stmts := Statements(gs, []);
            var pieces := Split(Join(ScannedTexts(stmts, hideBodies)));
            && Join(Raws(stmts)) == Joined(gs)
            && |pieces| == |stmts|
            && forall k :: 0 <= k < |stmts| ==> IsScanned(stmts[k], hideBodies, pieces[k])
  {
    var stmts := Statements(gs, []);
    var texts := ScannedTexts(stmts, hideBodies);
    StatementsPartitionText(gs, []);
    StatementsAreSplit(gs, []);
    assert Joined([]) + Joined(gs) == Joined(gs);
    forall k | 0 <= k < |stmts|
      ensures NoSemicolon(texts[k]) && IsScanned(stmts[k], hideBodies, texts[k])
    {
      ScannedTextIsScanned(stmts[k], hideBodies);
    }
    SplitJoin(texts);
  }

  // ---------------------------------------------------------------- the splitter as the source writes it

  method SplitStatements(gs: seq<Segment>) returns (stmts: seq<Statement>)
    ensures stmts == Statements(gs, [])
  {
    stmts := [[]];
    for i := 0 to |gs|
      invariant stmts != []
      invariant stmts[..|stmts| - 1] + Statements(gs[i..], stmts[|stmts| - 1]) == Statements(gs, [])
    {
      var g := gs[i];
      assert gs[i..][0] == g && gs[i..][1..] == gs[i + 1..];
      var done, current := stmts[..|stmts| - 1], stmts[|stmts| - 1];
      if g.kind != Code {
        stmts := done + [current + [g]];
        assert stmts[..|stmts| - 1] == done;
        continue;
      }
      var parts := Split(g.text);
      stmts := done + [current + CodePart(parts[0])];
      for n := 1 to |parts|
        invariant Added(done, current, parts, n, stmts)
      {
        stmts := stmts + [CodePart(parts[n])];
        AddedStep(done, current, parts, n, stmts);
      }
      AddedAll(done, current, parts, stmts);
    }
    assert gs[|gs|..] == [];
    assert stmts == stmts[..|stmts| - 1] + [stmts[|stmts| - 1]];
  }

  /** After `n` parts: the statements completed so far, and the last one still open. */
  ghost predicate Added(done: seq<Statement>, current: Statement, parts: seq<string>, n: nat, stmts: seq<Statement>)
    requires 1 <= n <= |parts|
  {
    stmts == done + Completed(parts[..n], current) + [Remaining(parts[..n], current)]
  }

  lemma {:induction false} PartsSnoc(parts: seq<string>, p: string, current: Statement)
    requires parts != []
    ensures Completed(parts + [p], current) == Completed(parts, current) + [Remaining(parts, current)]
    ensures Remaining(parts + [p], current) == CodePart(p)
  {
    assert (parts + [p])[1..] == parts[1..] + [p];
    if |parts| > 1 {
      PartsSnoc(parts[1..], p, []);
    } else {
      assert Remaining([p], []) == [] + CodePart(p);
    }
  }

  lemma AddedStep(done: seq<Statement>, current: Statement, parts: seq<string>, n: nat, stmts: seq<Statement>)
    requires 1 <= n < |parts|
    requires stmts == done + Completed(parts[..n], current) + [Remaining(parts[..n], current)] + [CodePart(parts[n])]
    ensures Added(done, current, parts, n + 1, stmts)
  {
    PartsSnoc(parts[..n], parts[n], current);
    assert parts[..n] + [parts[n]] == parts[..n + 1];
  }

  lemma AddedAll(done: seq<Statement>, current: Statement, parts: seq<string>, stmts: seq<Statement>)
    requires parts != [] && Added(done, current, parts, |parts|, stmts)
    ensures stmts[..|stmts| - 1] == done + Completed(parts, current)
    ensures stmts[|stmts| - 1] == Remaining(parts, current)
  {
    assert parts[..|parts|] == parts;
  }

  lemma TextFromStep(text: string, stmt: Statement, k: nat, bodyOpen: bool)
    requires k < |stmt|
    ensures stmt[k].kind == Code ==> text + TextFrom(stmt, k, bodyOpen) == (text + stmt[k].text) + TextFrom(stmt, k + 1, bodyOpen)
    ensures stmt[k].kind != Code && bodyOpen && IsAsBody(stmt, k) ==>
              text + TextFrom(stmt, k, bodyOpen) == (text + " ") + TextFrom(stmt, k + 1, false)
    ensures stmt[k].kind != Code && !(bodyOpen && IsAsBody(stmt, k)) ==>
              text + TextFrom(stmt, k, bodyOpen) == (text + Flat(stmt[k].text)) + TextFrom(stmt, k + 1, bodyOpen)
  {
  }

  /** The text of one statement, segment by segment, with the `bodyHidden` flag of the source. */
  method ScanStatement(stmt: Statement, hideBodies: bool) returns (text: string)
    ensures text == ScannedText(stmt, hideBodies)
  {
    var isFunction := hideBodies && |stmt| > 0 && stmt[0].kind == Code && IsFunctionHead(stmt[0].text);
    var bodyHidden := false;
    text := "";
    for idx := 0 to |stmt|
      invariant text + TextFrom(stmt, idx, isFunction && !bodyHidden) == TextFrom(stmt, 0, isFunction)
    {
      TextFromStep(text, stmt, idx, isFunction && !bodyHidden);
      var body := isFunction && !bodyHidden && IsAsBody(stmt, idx);
      if stmt[idx].kind == Code {
        text := text + stmt[idx].text;
      } else if body {
        bodyHidden := true;
        text := text + " ";
      } else {
        text := text + Flat(stmt[idx].text);
      }
    }
    assert text == TextFrom(stmt, 0, isFunction);
    if IsDropNotNull(text) {
      text := "";
    }
  }

  method ScanText(sql: string, hideBodies: bool) returns (text: string, stmts: seq<Statement>, problems: set<Problem>)
    ensures stmts == Statements(Segments(Pieces("", sql), ""), [])
    ensures text == Join(ScannedTexts(stmts, hideBodies))
    ensures problems == Problems(Pieces("", sql))
  {
    var segments;
    segments, problems := LexSql(sql);
    stmts := SplitStatements(segments);
    var out := ScanAll(stmts, hideBodies);
    text := Join(out);
  }

  lemma EachScanned(stmts: seq<Statement>, hideBodies: bool, out: seq<string>)
    requires |out| == |stmts| && forall k :: 0 <= k < |stmts| ==> out[k] == ScannedText(stmts[k], hideBodies)
    ensures out == ScannedTexts(stmts, hideBodies)
  {
  }

  method ScanAll(stmts: seq<Statement>, hideBodies: bool) returns (out: seq<string>)
    ensures out == ScannedTexts(stmts, hideBodies)
  {
    out := [];
    for k := 0 to |stmts|
      invariant |out| == k && forall m :: 0 <= m < k ==> out[m] == ScannedText(stmts[m], hideBodies)
    {
      var t := ScanStatement(stmts[k], hideBodies);
      out := out + [t];
    }
    EachScanned(stmts, hideBodies, out);
  }
}
