/**
 * Slug derivation for catalog entities: what Category.save and Product.save
 * do when the entity has no slug yet.
 *
 * The pipeline is: lower-case the name, apply the transliteration table one
 * entry at a time, delete every character outside [a-z0-9-], collapse runs
 * of hyphens, strip hyphens at both ends, and fall back to a fixed word when
 * nothing is left. Products then look for the least free suffix.
 */
module Slugs {

  // ---------------------------------------------------------------------
  // Characters

  /** The characters a slug may hold: the class [a-z0-9-]. */
  predicate IsSlugChar(c: char)
  {
    'a' <= c <= 'z' || '0' <= c <= '9' || c == '-'
  }

  /** The slug characters other than the hyphen. */
  predicate IsAlnum(c: char)
  {
    'a' <= c <= 'z' || '0' <= c <= '9'
  }

  /**
   * Lower-casing of one character, for the modelled alphabet: the ASCII
   * capitals, the Russian capitals А..Я and Ё. Every other character is
   * returned unchanged.
   */
  function LowerChar(c: char): (r: char)
    ensures !IsUpper(r)
    ensures IsUpper(c) <==> r != c
  {
    if 'A' <= c <= 'Z' || 'А' <= c <= 'Я' then (c as int + 32) as char
    else if c == 'Ё' then 'ё'
    else c
  }

  /** The capitals of the modelled alphabet. */
  predicate IsUpper(c: char)
  {
    'A' <= c <= 'Z' || 'А' <= c <= 'Я' || c == 'Ё'
  }

  /**
   * str.lower() on the modelled alphabet, one character at a time: same
   * length, no capital left, every other character where it was.
   */
  function Lower(s: string): (r: string)
    ensures |r| == |s|
    ensures forall i :: 0 <= i < |r| ==> !IsUpper(r[i])
    ensures forall i :: 0 <= i < |s| && !IsUpper(s[i]) ==> r[i] == s[i]
  {
    seq(|s|, i requires 0 <= i < |s| => LowerChar(s[i]))
  }

  /** Lower-casing twice is lower-casing once. */
  lemma LowerIdempotent(s: string)
    ensures Lower(Lower(s)) == Lower(s)
  {
  }

  // ---------------------------------------------------------------------
  // Transliteration

  /** A substitution table: (key, replacement) pairs in the order the loop visits them. */
  type Table = seq<(char, string)>

  /** The table of both save methods, in the order of its dictionary literal. */
  const TranslitTable: Table := [
    ('а', "a"), ('б', "b"), ('в', "v"), ('г', "g"), ('д', "d"), ('е', "e"), ('ё', "yo"),
    ('ж', "zh"), ('з', "z"), ('и', "i"), ('й', "y"), ('к', "k"), ('л', "l"), ('м', "m"),
    ('н', "n"), ('о', "o"), ('п', "p"), ('р', "r"), ('с', "s"), ('т', "t"), ('у', "u"),
    ('ф', "f"), ('х', "h"), ('ц', "ts"), ('ч', "ch"), ('ш', "sh"), ('щ', "sch"), ('ъ', ""),
    ('ы', "y"), ('ь', ""), ('э', "e"), ('ю', "yu"), ('я', "ya"),
    (' ', "-"), ('"', ""), ('\'', "")
  ]

  /**
   * Every key lies outside [a-z0-9-] and every replacement inside it, so a
   * replacement never brings in a key of a later entry.
   */
  predicate TableOk(t: Table)
  {
    forall j :: 0 <= j < |t| ==> EntryOk(t[j])
  }

  predicate EntryOk(e: (char, string))
  {
    !IsSlugChar(e.0) && forall i :: 0 <= i < |e.1| ==> IsSlugChar(e.1[i])
  }

  lemma TranslitTableOk()
    ensures TableOk(TranslitTable)
  {
    forall j | 0 <= j < |TranslitTable| ensures EntryOk(TranslitTable[j]) {
    }
  }

  /** str.replace(key, repl) for a one-character key: every occurrence of the key is replaced. */
  function ReplaceAll(s: string, key: char, repl: string): (r: string)
    ensures key !in s ==> r == s
  {
    if s == [] then []
    else (if s[0] == key then repl else [s[0]]) + ReplaceAll(s[1..], key, repl)
  }

  /** The entries of t applied to s one after the other, as the loop in save applies them. */
  function ReplaceEach(s: string, t: Table): string
    decreases t
  {
    if t == [] then s else ReplaceEach(ReplaceAll(s, t[0].0, t[0].1), t[1..])
  }

  /** What the table makes of one character: the replacement of its first entry, or the character itself. */
  function Lookup(t: Table, c: char): string
  {
    if t == [] then [c] else if t[0].0 == c then t[0].1 else Lookup(t[1..], c)
  }

  /** Character-by-character substitution through the table: the reference for the loop. */
  function Transliterate(s: string, t: Table): string
  {
    if s == [] then [] else Lookup(t, s[0]) + Transliterate(s[1..], t)
  }

  lemma {:induction false} TransliterateAppend(a: string, b: string, t: Table)
    ensures Transliterate(a + b, t) == Transliterate(a, t) + Transliterate(b, t)
  {
    if a == [] {
      assert a + b == b;
    } else {
      assert (a + b)[1..] == a[1..] + b;
      TransliterateAppend(a[1..], b, t);
    }
  }

  lemma {:induction false} LookupNoKey(t: Table, c: char)
    requires forall j :: 0 <= j < |t| ==> t[j].0 != c
    ensures Lookup(t, c) == [c]
  {
    if t != [] {
      assert forall j :: 0 <= j < |t[1..]| ==> t[1..][j] == t[j + 1];
      LookupNoKey(t[1..], c);
    }
  }

  /** A string that holds no key of the table comes through the table unchanged. */
  lemma {:induction false} TransliterateNoKeys(s: string, t: Table)
    requires forall i, j :: 0 <= i < |s| && 0 <= j < |t| ==> s[i] != t[j].0
    ensures Transliterate(s, t) == s
  {
    if s != [] {
      LookupNoKey(t, s[0]);
      assert forall i :: 0 <= i < |s[1..]| ==> s[1..][i] == s[i + 1];
      TransliterateNoKeys(s[1..], t);
      assert s == [s[0]] + s[1..];
    }
  }

  lemma TableOkTail(t: Table)
    requires t != [] && TableOk(t)
    ensures TableOk(t[1..])
  {
    assert forall j :: 0 <= j < |t[1..]| ==> t[1..][j] == t[j + 1];
  }

  /**
   * One round of the loop: replacing the first entry's key and then
   * substituting through the remaining entries is substituting through all.
   */
  lemma {:induction false} ReplaceFirstEntry(s: string, t: Table)
    requires t != [] && TableOk(t)
    ensures Transliterate(ReplaceAll(s, t[0].0, t[0].1), t[1..]) == Transliterate(s, t)
  {
    if s != [] {
      var (key, repl) := t[0];
      var head := if s[0] == key then repl else [s[0]];
      TransliterateAppend(head, ReplaceAll(s[1..], key, repl), t[1..]);
      ReplaceFirstEntry(s[1..], t);
      TableOkTail(t);
      if s[0] == key {
        assert forall i, j :: 0 <= i < |repl| && 0 <= j < |t[1..]| ==> repl[i] != t[1..][j].0 by {
          forall i, j | 0 <= i < |repl| && 0 <= j < |t[1..]|
            ensures repl[i] != t[1..][j].0
          {
            assert EntryOk(t[0]);
            assert IsSlugChar(repl[i]);
            assert t[1..][j] == t[j + 1];
            assert EntryOk(t[j + 1]);
          }
        }
        TransliterateNoKeys(repl, t[1..]);
      } else {
        assert Transliterate([s[0]], t[1..]) == Lookup(t[1..], s[0]) + Transliterate([], t[1..]);
      }
    }
  }

  /**
   * The replacement loop of save equals character-by-character substitution
   * through the table, whenever no replacement contains a key.
   */
  lemma {:induction false} ReplaceEachIsTransliterate(s: string, t: Table)
    requires TableOk(t)
    ensures ReplaceEach(s, t) == Transliterate(s, t)
    decreases t
  {
    if t == [] {
      TransliterateNoKeys(s, t);
    } else {
      ReplaceFirstEntry(s, t);
      TableOkTail(t);
      ReplaceEachIsTransliterate(ReplaceAll(s, t[0].0, t[0].1), t[1..]);
    }
  }

  // ---------------------------------------------------------------------
  // Cleanup

  /** The letters and digits of s, in order. */
  function Alnums(s: string): string
  {
    if s == [] then [] else (if IsAlnum(s[0]) then [s[0]] else []) + Alnums(s[1..])
  }

  lemma {:induction false} AlnumsAppend(a: string, b: string)
    ensures Alnums(a + b) == Alnums(a) + Alnums(b)
  {
    if a == [] {
      assert a + b == b;
    } else {
      var head := if IsAlnum(a[0]) then [a[0]] else [];
      assert (a + b)[0] == a[0];
      assert (a + b)[1..] == a[1..] + b;
      AlnumsAppend(a[1..], b);
      assert Alnums(a + b) == head + (Alnums(a[1..]) + Alnums(b));
      assert Alnums(a) == head + Alnums(a[1..]);
    }
  }

  /** re.sub(r'[^a-z0-9\-]', '', s): every character outside [a-z0-9-] is deleted, every other one kept. */
  function KeepSlugChars(s: string): (r: string)
    ensures forall i :: 0 <= i < |r| ==> IsSlugChar(r[i])
    ensures Alnums(r) == Alnums(s)
    ensures (forall i :: 0 <= i < |s| ==> IsSlugChar(s[i])) ==> r == s
    ensures (forall i :: 0 <= i < |s| ==> !IsSlugChar(s[i])) ==> r == []
  {
    if s == [] then []
    else
      assert s == [s[0]] + s[1..];
      var head := if IsSlugChar(s[0]) then [s[0]] else [];
      AlnumsAppend(head, KeepSlugChars(s[1..]));
      head + KeepSlugChars(s[1..])
  }

  /** The regular-expression step deletes exactly the characters outside [a-z0-9-]. */
  lemma {:induction false} KeepSlugCharsCounts(s: string)
    ensures forall c :: multiset(KeepSlugChars(s))[c] == if IsSlugChar(c) then multiset(s)[c] else 0
  {
    if s != [] {
      assert s == [s[0]] + s[1..];
      KeepSlugCharsCounts(s[1..]);
    }
  }

  /**
   * The regular-expression step works on each piece of its input on its
   * own: what it keeps of a + b is what it keeps of a followed by what it
   * keeps of b. With the two ensures above, this says every kept
   * character stays where it was relative to the others.
   */
  lemma {:induction false} KeepSlugCharsAppend(a: string, b: string)
    ensures KeepSlugChars(a + b) == KeepSlugChars(a) + KeepSlugChars(b)
  {
    if a == [] {
      assert a + b == b;
    } else {
      assert (a + b)[0] == a[0];
      assert (a + b)[1..] == a[1..] + b;
      KeepSlugCharsAppend(a[1..], b);
    }
  }

  /** s holds no two hyphens in a row. */
  predicate NoDoubleHyphen(s: string)
  {
    forall i :: 0 <= i < |s| - 1 ==> !(s[i] == '-' && s[i + 1] == '-')
  }

  /**
   * re.sub(r'-+', '-', s): every run of hyphens becomes one hyphen. Letters
   * and digits are kept, and no character outside [a-z0-9-] comes in.
   */
  function CollapseHyphens(s: string): (r: string)
    ensures NoDoubleHyphen(r)
    ensures |r| <= |s| && (r == [] <==> s == [])
    ensures (forall i :: 0 <= i < |s| ==> IsSlugChar(s[i])) ==> forall i :: 0 <= i < |r| ==> IsSlugChar(r[i])
    ensures Alnums(r) == Alnums(s)
    ensures NoDoubleHyphen(s) ==> r == s
  {
    if |s| <= 1 then s
    else if s[0] == '-' && s[1] == '-' then
      AlnumsSkipsHyphen(s);
      CollapseHyphens(s[1..])
    else
      assert s == [s[0]] + s[1..];
      var rest := CollapseHyphens(s[1..]);
      AlnumsAppend([s[0]], rest);
      AlnumsAppend([s[0]], s[1..]);
      var r := [s[0]] + rest;
      assert forall i :: 1 <= i < |r| ==> r[i] == rest[i - 1];
      r
  }

  lemma AlnumsSkipsHyphen(s: string)
    requires s != [] && s[0] == '-'
    ensures Alnums(s) == Alnums(s[1..])
  {
    assert Alnums(s) == [] + Alnums(s[1..]);
  }

  /** s with its leading hyphens removed. */
  function TrimLeading(s: string): (r: string)
    ensures |r| <= |s| && r == s[|s| - |r|..]
    ensures forall i :: 0 <= i < |s| - |r| ==> s[i] == '-'
    ensures r == [] || r[0] != '-'
    ensures Alnums(r) == Alnums(s)
  {
    if s != [] && s[0] == '-' then
      var r := TrimLeading(s[1..]);
      assert forall i :: 1 <= i < |s| - |r| ==> s[i] == s[1..][i - 1];
      AlnumsSkipsHyphen(s);
      r
    else s
  }

  /** s with its trailing hyphens removed. */
  function TrimTrailing(s: string): (r: string)
    ensures |r| <= |s| && r == s[..|r|]
    ensures forall i :: |r| <= i < |s| ==> s[i] == '-'
    ensures r == [] || r[|r| - 1] != '-'
    ensures Alnums(r) == Alnums(s)
  {
    if s != [] && s[|s| - 1] == '-' then
      var init := s[..|s| - 1];
      assert s == init + [s[|s| - 1]];
      AlnumsAppend(init, [s[|s| - 1]]);
      TrimTrailing(init)
    else s
  }

  /** The number of hyphens s.strip('-') removes from the front of s. */
  function LeadingHyphens(s: string): nat
  {
    |s| - |TrimLeading(s)|
  }

  /**
   * s.strip('-'): s without the hyphens at either end. The result is the
   * piece of s that starts after the leading hyphens, and everything
   * around it is a hyphen.
   */
  function StripHyphens(s: string): (r: string)
    ensures r == [] || (r[0] != '-' && r[|r| - 1] != '-')
    ensures LeadingHyphens(s) + |r| <= |s| && r == s[LeadingHyphens(s)..LeadingHyphens(s) + |r|]
    ensures forall i :: 0 <= i < |s| && !(LeadingHyphens(s) <= i < LeadingHyphens(s) + |r|) ==> s[i] == '-'
    ensures Alnums(r) == Alnums(s)
  {
    var t := TrimLeading(s);
    var r := TrimTrailing(t);
    StripPiece(s, t, r);
    r
  }

  /** The piece TrimTrailing keeps of the piece TrimLeading keeps, as a piece of s. */
  lemma StripPiece(s: string, t: string, r: string)
    requires |t| <= |s| && t == s[|s| - |t|..]
    requires |r| <= |t| && r == t[..|r|]
    requires forall i :: |r| <= i < |t| ==> t[i] == '-'
    ensures r == s[|s| - |t|..|s| - |t| + |r|]
    ensures forall i :: |s| - |t| + |r| <= i < |s| ==> s[i] == '-'
  {
    var lead := |s| - |t|;
    assert forall i :: lead + |r| <= i < |s| ==> s[i] == t[i - lead];
  }

  /** A well-formed slug: non-empty, made of [a-z0-9-], no doubled hyphen, no hyphen at either end. */
  predicate WellFormedSlug(s: string)
  {
    && s != []
    && (forall i :: 0 <= i < |s| ==> IsSlugChar(s[i]))
    && NoDoubleHyphen(s)
    && s[0] != '-' && s[|s| - 1] != '-'
  }

  /** The three cleanup steps of save, then the fallback word when nothing is left. */
  function CleanSlug(s: string, fallback: string): string
  {
    var r := StripHyphens(CollapseHyphens(KeepSlugChars(s)));
    if r == [] then fallback else r
  }

  /** The slug save derives from a name (before any uniqueness suffix). */
  function SlugOf(name: string, fallback: string): string
  {
    CleanSlug(Transliterate(Lower(name), TranslitTable), fallback)
  }

  /**
   * Cleanup yields a well-formed slug. It keeps every letter and digit of
   * its input, in order, and it falls back exactly when there is none.
   */
  lemma CleanSlugProperties(s: string, fallback: string)
    requires WellFormedSlug(fallback)
    ensures WellFormedSlug(CleanSlug(s, fallback))
    ensures Alnums(s) == [] ==> CleanSlug(s, fallback) == fallback
    ensures Alnums(s) != [] ==> Alnums(CleanSlug(s, fallback)) == Alnums(s)
  {
    var k := KeepSlugChars(s);
    var c := CollapseHyphens(k);
    var r := StripHyphens(c);
    assert Alnums(r) == Alnums(s);
    if r != [] {
      InfixWellFormed(c, r, LeadingHyphens(c));
      WellFormedHasAlnum(r);
    }
  }

  /** A well-formed slug starts with a letter or digit. */
  lemma WellFormedHasAlnum(r: string)
    requires WellFormedSlug(r)
    ensures Alnums(r) != []
  {
    assert Alnums(r) == [r[0]] + Alnums(r[1..]);
  }

  /** A non-empty stripped piece of a collapsed string of slug characters is a well-formed slug. */
  lemma InfixWellFormed(c: string, r: string, lead: nat)
    requires forall i :: 0 <= i < |c| ==> IsSlugChar(c[i])
    requires NoDoubleHyphen(c)
    requires r != [] && r[0] != '-' && r[|r| - 1] != '-'
    requires lead + |r| <= |c| && r == c[lead..lead + |r|]
    ensures WellFormedSlug(r)
  {
    assert forall i :: 0 <= i < |r| ==> r[i] == c[lead + i];
  }

  // ---------------------------------------------------------------------
  // Words: where the hyphens go

  /** The hyphen-separated words of s: its maximal non-empty pieces without a hyphen, in order. */
  function Words(s: string): (r: seq<string>)
    ensures s != [] && s[0] != '-' ==> r != []
  {
    if s == [] then []
    else if s[0] == '-' then Words(s[1..])
    else if |s| == 1 || s[1] == '-' then [[s[0]]] + Words(s[1..])
    else
      var w := Words(s[1..]);
      [[s[0]] + w[0]] + w[1..]
  }

  /** The words joined by single hyphens. */
  function Join(ws: seq<string>): string
  {
    if ws == [] then []
    else if |ws| == 1 then ws[0]
    else ws[0] + "-" + Join(ws[1..])
  }

  /** Collapsing keeps the words of s and its first character, so a hyphen run between two words becomes one hyphen. */
  lemma {:induction false} CollapseKeepsWords(s: string)
    ensures Words(CollapseHyphens(s)) == Words(s)
    ensures s != [] ==> CollapseHyphens(s) != [] && CollapseHyphens(s)[0] == s[0]
  {
    if |s| <= 1 {
    } else if s[0] == '-' && s[1] == '-' {
      CollapseKeepsWords(s[1..]);
    } else {
      var rest := CollapseHyphens(s[1..]);
      CollapseKeepsWords(s[1..]);
      var r := [s[0]] + rest;
      assert CollapseHyphens(s) == r;
      assert r[1..] == rest;
      assert r[1] == s[1];
    }
  }

  /**
   * Collapsing keeps the last character of s, so a hyphen run at the end
   * becomes one hyphen rather than vanishing.
   */
  lemma {:induction false} CollapseKeepsLast(s: string)
    requires s != []
    ensures CollapseHyphens(s) != [] && CollapseHyphens(s)[|CollapseHyphens(s)| - 1] == s[|s| - 1]
  {
    if |s| > 1 {
      var rest := CollapseHyphens(s[1..]);
      CollapseKeepsLast(s[1..]);
      if !(s[0] == '-' && s[1] == '-') {
        var r := [s[0]] + rest;
        assert CollapseHyphens(s) == r;
        assert r[|r| - 1] == rest[|rest| - 1];
      }
    }
  }

  /** A hyphen at the end adds no word. */
  lemma {:induction false} WordsTrailingHyphen(s: string)
    ensures Words(s + "-") == Words(s)
  {
    if s == [] {
      assert (s + "-")[1..] == [];
    } else {
      assert (s + "-")[0] == s[0];
      assert (s + "-")[1..] == s[1..] + "-";
      WordsTrailingHyphen(s[1..]);
    }
  }

  lemma {:induction false} WordsTrimLeading(s: string)
    ensures Words(TrimLeading(s)) == Words(s)
  {
    if s != [] && s[0] == '-' {
      WordsTrimLeading(s[1..]);
    }
  }

  lemma {:induction false} WordsTrimTrailing(s: string)
    ensures Words(TrimTrailing(s)) == Words(s)
  {
    if s != [] && s[|s| - 1] == '-' {
      var init := s[..|s| - 1];
      assert s == init + "-";
      WordsTrailingHyphen(init);
      WordsTrimTrailing(init);
    }
  }

  /** Putting a letter in front of the first word puts it in front of the joined string. */
  lemma JoinConsChar(c: char, ws: seq<string>)
    requires ws != []
    ensures Join([[c] + ws[0]] + ws[1..]) == [c] + Join(ws)
  {
    var x := [[c] + ws[0]] + ws[1..];
    if |ws| > 1 {
      assert x[1..] == ws[1..];
    }
  }

  /** A string with no doubled hyphen and no hyphen at either end is its words joined by single hyphens. */
  lemma {:induction false} JoinWords(s: string)
    requires NoDoubleHyphen(s)
    requires s == [] || (s[0] != '-' && s[|s| - 1] != '-')
    ensures Join(Words(s)) == s
    decreases |s|
  {
    if |s| == 1 {
      assert Words(s) == [[s[0]]];
    } else if |s| > 1 && s[1] == '-' {
      var t := s[2..];
      assert s[1..][1..] == t;
      assert NoDoubleHyphen(t) by {
        assert forall i :: 0 <= i < |t| ==> t[i] == s[i + 2];
      }
      JoinWords(t);
      assert Words(s) == [[s[0]]] + Words(t);
      assert s == [s[0]] + "-" + t;
    } else if |s| > 1 {
      var t := s[1..];
      assert NoDoubleHyphen(t) by {
        assert forall i :: 0 <= i < |t| ==> t[i] == s[i + 1];
      }
      JoinWords(t);
      JoinConsChar(s[0], Words(t));
      assert s == [s[0]] + t;
    }
  }

  /**
   * Cleanup as a whole: the slug is the words of what the regular
   * expression keeps, joined by single hyphens, or the fallback when there
   * is no word.
   */
  lemma CleanSlugIsJoin(s: string, fallback: string)
    ensures CleanSlug(s, fallback) == (var j := Join(Words(KeepSlugChars(s))); if j == [] then fallback else j)
  {
    var k := KeepSlugChars(s);
    var c := CollapseHyphens(k);
    var r := StripHyphens(c);
    CollapseKeepsWords(k);
    WordsStrip(c);
    if r != [] {
      InfixWellFormed(c, r, LeadingHyphens(c));
      JoinWords(r);
    }
  }

  /** strip('-') keeps the words. */
  lemma WordsStrip(s: string)
    ensures Words(StripHyphens(s)) == Words(s)
  {
    WordsTrimLeading(s);
    WordsTrimTrailing(TrimLeading(s));
  }

  /** A hyphen-free word followed by nothing or by a hyphen is the first word. */
  lemma {:induction false} WordsOfWord(w: string, rest: string)
    requires w != [] && forall i :: 0 <= i < |w| ==> w[i] != '-'
    requires rest == [] || rest[0] == '-'
    ensures Words(w + rest) == [w] + Words(rest)
  {
    var s := w + rest;
    assert s[0] == w[0];
    assert s[1..] == w[1..] + rest;
    if |w| == 1 {
      assert s[1..] == rest && w == [w[0]];
      assert Words(s) == [[w[0]]] + Words(rest);
    } else {
      WordsOfWord(w[1..], rest);
      assert s[1] == w[1];
      var ws := Words(s[1..]);
      assert ws == [w[1..]] + Words(rest);
      assert Words(s) == [[w[0]] + ws[0]] + ws[1..];
      assert w == [w[0]] + w[1..];
    }
  }

  /** Two words with a hyphen run between them give the two words joined by one hyphen. */
  lemma TwoWordsSlug(w1: string, w2: string, fallback: string)
    requires w1 != [] && forall i :: 0 <= i < |w1| ==> IsSlugChar(w1[i]) && w1[i] != '-'
    requires w2 != [] && forall i :: 0 <= i < |w2| ==> IsSlugChar(w2[i]) && w2[i] != '-'
    ensures CleanSlug(w1 + "--" + w2, fallback) == w1 + "-" + w2
  {
    var tail := "--" + w2;
    var s := w1 + tail;
    assert w1 + "--" + w2 == s;
    forall i | 0 <= i < |s| ensures IsSlugChar(s[i]) {
      if i < |w1| {
        assert s[i] == w1[i];
      } else if i < |w1| + 2 {
        assert s[i] == '-';
      } else {
        assert s[i] == w2[i - |w1| - 2];
      }
    }
    assert KeepSlugChars(s) == s;
    WordsOfWord(w1, tail);
    assert tail[1..][1..] == w2;
    assert Words(tail) == Words(tail[1..]) == Words(w2);
    WordsOfWord(w2, []);
    assert w2 + [] == w2;
    assert Words(s) == [w1, w2];
    CleanSlugIsJoin(s, fallback);
  }

  /** What both save methods promise of the slug they derive from a name. */
  lemma SlugOfProperties(name: string, fallback: string)
    requires WellFormedSlug(fallback)
    ensures WellFormedSlug(SlugOf(name, fallback))
    ensures var t := Transliterate(Lower(name), TranslitTable);
      (Alnums(t) == [] ==> SlugOf(name, fallback) == fallback)
      && (Alnums(t) != [] ==> Alnums(SlugOf(name, fallback)) == Alnums(t))
    ensures var j := Join(Words(KeepSlugChars(Transliterate(Lower(name), TranslitTable))));
      SlugOf(name, fallback) == if j == [] then fallback else j
  {
    CleanSlugProperties(Transliterate(Lower(name), TranslitTable), fallback);
    CleanSlugIsJoin(Transliterate(Lower(name), TranslitTable), fallback);
  }

  /** The loop of str.replace calls over the table's entries, in table order. */
  method ReplaceLoop(s: string, t: Table) returns (r: string)
    ensures r == ReplaceEach(s, t)
  {
    r := s;
    for i := 0 to |t|
      invariant ReplaceEach(r, t[i..]) == ReplaceEach(s, t)
    {
      assert t[i..][1..] == t[i + 1..];
      r := ReplaceAll(r, t[i].0, t[i].1);
    }
  }

  /**
   * The lower-case, transliterate and clean-up part of save: the loop over
   * the table's entries, then the three regular-expression steps and the
   * fallback.
   */
  method BaseSlug(name: string, fallback: string) returns (slug: string)
    ensures slug == SlugOf(name, fallback)
  {
    var lowered := Lower(name);
    slug := ReplaceLoop(lowered, TranslitTable);
    TranslitTableOk();
    ReplaceEachIsTransliterate(lowered, TranslitTable);
    slug := KeepSlugChars(slug);
    slug := CollapseHyphens(slug);
    slug := StripHyphens(slug);
    if slug == [] {
      slug := fallback;
    }
  }

  // ---------------------------------------------------------------------
  // Uniqueness suffix

  function Digit(d: nat): (c: char)
    requires d < 10
    ensures '0' <= c <= '9'
  {
    ('0' as int + d) as char
  }

  /** str(n) for a natural number: its decimal digits, most significant first. */
  function DecimalString(n: nat): (r: string)
    ensures |r| >= 1
    ensures forall i :: 0 <= i < |r| ==> '0' <= r[i] <= '9'
  {
    if n < 10 then [Digit(n)] else DecimalString(n / 10) + [Digit(n % 10)]
  }

  /** int(s) for a string of decimal digits: the reading DecimalString is checked against. */
  function DecimalValue(s: string): nat
    requires forall i :: 0 <= i < |s| ==> '0' <= s[i] <= '9'
  {
    if s == [] then 0
    else DecimalValue(s[..|s| - 1]) * 10 + (s[|s| - 1] as int - '0' as int)
  }

  lemma {:induction false} DecimalRoundTrip(n: nat)
    ensures DecimalValue(DecimalString(n)) == n
  {
    if n >= 10 {
      var r := DecimalString(n);
      assert r[..|r| - 1] == DecimalString(n / 10);
      DecimalRoundTrip(n / 10);
    }
  }

  /** The counter text of two different counters differs. */
  lemma DecimalStringInjective(a: nat, b: nat)
    requires DecimalString(a) == DecimalString(b)
    ensures a == b
  {
    DecimalRoundTrip(a);
    DecimalRoundTrip(b);
  }

  /** The k-th slug the loop tries: the base itself, then base-1, base-2, ... */
  function Candidate(base: string, k: nat): string
  {
    if k == 0 then base else base + "-" + DecimalString(k)
  }

  lemma CandidateInjective(base: string, j: nat, k: nat)
    requires Candidate(base, j) == Candidate(base, k)
    ensures j == k
  {
    if j != 0 && k != 0 {
      var n := |base| + 1;
      assert DecimalString(j) == Candidate(base, j)[n..];
      assert DecimalString(k) == Candidate(base, k)[n..];
      DecimalStringInjective(j, k);
    }
  }

  /** A suffix keeps a well-formed base well-formed. */
  lemma CandidateWellFormed(base: string, k: nat)
    requires WellFormedSlug(base)
    ensures WellFormedSlug(Candidate(base, k))
  {
    if k != 0 {
      var d := DecimalString(k);
      var r := base + "-" + d;
      assert forall i :: 0 <= i < |d| ==> r[|base| + 1 + i] == d[i];
      assert r[|base|] == '-';
      assert forall i :: 0 <= i < |base| ==> r[i] == base[i];
    }
  }

  /** Candidate k is free, and every earlier candidate is taken. */
  ghost predicate IsLeastFree(base: string, existing: set<string>, k: nat)
  {
    Candidate(base, k) !in existing && forall j: nat :: j < k ==> Candidate(base, j) in existing
  }

  /**
   * The uniqueness loop of Product.save: try the base, then base-1, base-2,
   * ... until a slug is free. The answer is the least free candidate, and
   * its counter is at most the number of slugs already taken. A suffix
   * keeps a well-formed base well-formed.
   */
  method UniqueSlug(base: string, existing: set<string>) returns (slug: string)
    ensures slug !in existing
    ensures exists k: nat :: k <= |existing| && slug == Candidate(base, k) && IsLeastFree(base, existing, k)
    ensures WellFormedSlug(base) ==> WellFormedSlug(slug)
  {
    slug := base;
    var counter := 1;
    ghost var taken: set<string> := {};
    while slug in existing
      invariant 1 <= counter
      invariant slug == Candidate(base, counter - 1)
      invariant forall j: nat :: j < counter - 1 ==> Candidate(base, j) in existing
      invariant taken <= existing && |taken| == counter - 1
      invariant forall t :: t in taken ==> exists j: nat :: j < counter - 1 && t == Candidate(base, j)
      decreases |existing| - |taken|
    {
      if slug in taken {
        var j: nat :| j < counter - 1 && slug == Candidate(base, j);
        CandidateInjective(base, j, counter - 1);
        assert false;
      }
      taken := taken + {slug};
      assert |taken| <= |existing| by {
        SubsetCard(taken, existing);
      }
      slug := base + "-" + DecimalString(counter);
      counter := counter + 1;
    }
    assert |taken| <= |existing| by {
      SubsetCard(taken, existing);
    }
    if WellFormedSlug(base) {
      CandidateWellFormed(base, counter - 1);
    }
  }

  lemma SubsetCard<T>(a: set<T>, b: set<T>)
    requires a <= b
    ensures |a| <= |b|
  {
    assert b == a + (b - a);
  }

  /** A product whose base is already taken, once, gets the suffix -1. */
  lemma SecondProductGetsSuffixOne(base: string, k: nat)
    requires IsLeastFree(base, {base}, k)
    ensures Candidate(base, k) == base + "-1"
  {
    assert |Candidate(base, 1)| > |base|;
    assert DecimalString(1) == "1";
  }

  /** The least free candidate is determined by the base and the taken slugs. */
  lemma LeastFreeUnique(base: string, existing: set<string>, j: nat, k: nat)
    requires IsLeastFree(base, existing, j) && IsLeastFree(base, existing, k)
    ensures j == k
  {
  }

  // ---------------------------------------------------------------------
  // The two models with a derived slug

  /** The words save falls back to when cleanup leaves nothing. */
  const CategoryFallback: string := "category"
  const ProductFallback: string := "product"

  lemma FallbacksWellFormed()
    ensures WellFormedSlug(CategoryFallback) && WellFormedSlug(ProductFallback)
  {
  }

  class Category {
    var name: string
    var slug: string

    constructor (name: string, slug: string)
      ensures this.name == name && this.slug == slug
    {
      this.name := name;
      this.slug := slug;
    }

    /**
     * Category.save: a missing slug is derived from the name alone, with no
     * uniqueness suffix; a slug already set is kept.
     */
    method Save()
      modifies this
      ensures name == old(name)
      ensures old(slug) != [] ==> slug == old(slug)
      ensures old(slug) == [] ==> slug == SlugOf(name, CategoryFallback) && WellFormedSlug(slug)
    {
      if slug == [] {
        slug := BaseSlug(name, CategoryFallback);
        FallbacksWellFormed();
        SlugOfProperties(name, CategoryFallback);
      }
    }
  }

  class Product {
    var name: string
    var slug: string

    constructor (name: string, slug: string)
      ensures this.name == name && this.slug == slug
    {
      this.name := name;
      this.slug := slug;
    }

    /**
     * Product.save: a missing slug is derived from the name, then made
     * unique against `existing`, the slugs stored in the products table.
     * The existence query does not exclude the row being saved, so for a
     * stored product re-saved with a cleared slug `existing` holds its own
     * stored slug too. A slug already set is kept.
     */
    method Save(existing: set<string>)
      modifies this
      ensures name == old(name)
      ensures old(slug) != [] ==> slug == old(slug)
      ensures old(slug) == [] ==> slug !in existing && WellFormedSlug(slug)
      ensures old(slug) == [] ==> exists k: nat :: (k <= |existing|
        && slug == Candidate(SlugOf(name, ProductFallback), k)
        && IsLeastFree(SlugOf(name, ProductFallback), existing, k))
    {
      if slug == [] {
        var base := BaseSlug(name, ProductFallback);
        FallbacksWellFormed();
        SlugOfProperties(name, ProductFallback);
        slug := UniqueSlug(base, existing);
      }
    }
  }
}
