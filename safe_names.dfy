/** The two string sanitisers of `app/utils.py`: `create_safe_file_name`, which
    makes a name usable as a file name, and `to_safe_key`, which turns a product
    designation into a key usable in a URL and as an HTML id or class. */
module SafeNames {

  import opened Text

  // ----- create_safe_file_name -----

  /** The nine characters the file name pattern replaces: `\ / * ? : " < > |`. */
  predicate IsReserved(c: char)
  {
    c == '\\' || c == '/' || c == '*' || c == '?' || c == ':' || c == '"' || c == '<' || c == '>' || c == '|'
  }

  /** `create_safe_file_name`: every reserved character becomes `_`, every other
      character is kept, and the length does not change. */
  function SafeFileName(name: string): (r: string)
    ensures |r| == |name|
    ensures forall i :: 0 <= i < |name| ==> r[i] == if IsReserved(name[i]) then '_' else name[i]
  {
    if name == [] then []
    else [if IsReserved(name[0]) then '_' else name[0]] + SafeFileName(name[1..])
  }

  /** No reserved character survives. */
  lemma SafeFileNameIsSafe(name: string)
    ensures forall i :: 0 <= i < |SafeFileName(name)| ==> !IsReserved(SafeFileName(name)[i])
  {
  }

  /** A name without reserved characters is left as it is. */
  lemma SafeFileNameKeepsSafe(name: string)
    requires forall i :: 0 <= i < |name| ==> !IsReserved(name[i])
    ensures SafeFileName(name) == name
  {
  }

  /** Sanitising twice is sanitising once. */
  lemma SafeFileNameIdempotent(name: string)
    ensures SafeFileName(SafeFileName(name)) == SafeFileName(name)
  {
    SafeFileNameIsSafe(name);
    SafeFileNameKeepsSafe(SafeFileName(name));
  }

  // ----- to_safe_key: transliteration -----

  /** The `translit` dictionary, in its insertion order, which is the order the
      replacements run in. */
  const Translit: seq<(char, string)> := [
    ('а', "a"), ('б', "b"), ('в', "v"), ('г', "g"), ('д', "d"), ('е', "e"), ('ё', "yo"), ('ж', "zh"),
    ('з', "z"), ('и', "i"), ('й', "y"), ('к', "k"), ('л', "l"), ('м', "m"), ('н', "n"), ('о', "o"),
    ('п', "p"), ('р', "r"), ('с', "s"), ('т', "t"), ('у', "u"), ('ф', "f"), ('х', "h"), ('ц', "c"),
    ('ч', "ch"), ('ш', "sh"), ('щ', "sch"), ('ъ', ""), ('ы', "y"), ('ь', ""), ('э', "e"), ('ю', "yu"),
    ('я', "ya")
  ]

  predicate IsLatinLower(c: char)
  {
    'a' <= c <= 'z'
  }

  /** The code point of the key of entry `i`: the letters а..я in alphabetical
      order, with ё (U+0451) inserted after е. */
  function KeyCode(i: int): int
  {
    if i < 6 then 0x430 + i else if i == 6 then 0x451 else 0x42F + i
  }

  lemma TranslitKeys()
    ensures |Translit| == 33
    ensures forall i :: 0 <= i < |Translit| ==> Translit[i].0 as int == KeyCode(i)
  {
  }

  lemma TranslitValues()
    ensures forall i, k :: 0 <= i < |Translit| && 0 <= k < |Translit[i].1| ==> IsLatinLower(Translit[i].1[k])
  {
  }

  /** The dictionary has no key twice. */
  lemma TranslitKeysDistinct()
    ensures forall i, j :: 0 <= i < j < |Translit| ==> Translit[i].0 != Translit[j].0
  {
    TranslitKeys();
    forall i, j | 0 <= i < j < |Translit| ensures Translit[i].0 != Translit[j].0 {
      assert KeyCode(i) != KeyCode(j);
    }
  }

  /** `s.replace(c, repl)` for a one-character `c`. */
  function Replace(s: string, c: char, repl: string): (r: string)
    ensures c !in s ==> r == s
  {
    if s == [] then []
    else (if s[0] == c then repl else [s[0]]) + Replace(s[1..], c, repl)
  }

  /** Replacing a character distributes over concatenation. */
  lemma {:induction false} ReplaceAppend(a: string, b: string, c: char, repl: string)
    ensures Replace(a + b, c, repl) == Replace(a, c, repl) + Replace(b, c, repl)
  {
    if a == [] {
      assert a + b == b;
    } else {
      assert (a + b)[0] == a[0];
      assert (a + b)[1..] == a[1..] + b;
      ReplaceAppend(a[1..], b, c, repl);
    }
  }

  /** What the first `n` replacements of the loop over dictionary `d` make of
      the single character `c`. */
  function LetterAfter(d: seq<(char, string)>, c: char, n: nat): string
    requires n <= |d|
  {
    if n == 0 then [c] else Replace(LetterAfter(d, c, n - 1), d[n - 1].0, d[n - 1].1)
  }

  /** What the first `n` replacements make of `s`: each character is replaced on
      its own, since no replacement brings in a character a later one matches. */
  function Transliterated(d: seq<(char, string)>, s: string, n: nat): string
    requires n <= |d|
  {
    if s == [] then [] else LetterAfter(d, s[0], n) + Transliterated(d, s[1..], n)
  }

  /** One more pass of the loop turns the text after `n` replacements into the
      text after `n + 1`. */
  lemma {:induction false} TransliteratedStep(d: seq<(char, string)>, s: string, n: nat)
    requires n < |d|
    ensures Replace(Transliterated(d, s, n), d[n].0, d[n].1) == Transliterated(d, s, n + 1)
  {
    if s != [] {
      TransliteratedStep(d, s[1..], n);
      ReplaceAppend(LetterAfter(d, s[0], n), Transliterated(d, s[1..], n), d[n].0, d[n].1);
    }
  }

  /** A character no entry before `n` names is left as it is. */
  lemma {:induction false} LetterAfterUnnamed(d: seq<(char, string)>, c: char, n: nat)
    requires n <= |d|
    requires forall j :: 0 <= j < n ==> d[j].0 != c
    ensures LetterAfter(d, c, n) == [c]
  {
    if n > 0 {
      LetterAfterUnnamed(d, c, n - 1);
    }
  }

  /** No key occurs in a replacement: keys are Cyrillic, replacements Latin. */
  lemma ReplacementUntouched(j: nat, m: nat)
    requires j < |Translit| && m < |Translit|
    ensures Translit[m].0 !in Translit[j].1
  {
    TranslitKeys();
    TranslitValues();
    var repl := Translit[j].1;
    forall k | 0 <= k < |repl| ensures repl[k] != Translit[m].0 {
      assert IsLatinLower(repl[k]);
    }
  }

  /** In a dictionary whose keys are distinct and occur in no replacement, the
      key of entry `j` becomes that entry's replacement, whatever runs after it. */
  lemma {:induction false} LetterAfterNamed(d: seq<(char, string)>, j: nat, n: nat)
    requires j < n <= |d|
    requires forall i, k :: 0 <= i < k < |d| ==> d[i].0 != d[k].0
    requires forall i, k :: 0 <= i < |d| && 0 <= k < |d| ==> d[k].0 !in d[i].1
    ensures LetterAfter(d, d[j].0, n) == d[j].1
  {
    if n == j + 1 {
      LetterAfterUnnamed(d, d[j].0, j);
    } else {
      LetterAfterNamed(d, j, n - 1);
      assert d[n - 1].0 !in d[j].1;
    }
  }

  /** The transliteration follows the dictionary: each of its letters becomes its
      replacement (ъ and ь disappear) and any other character is kept. */
  lemma TransliterationIsTable(c: char)
    ensures forall j :: 0 <= j < |Translit| && Translit[j].0 == c ==>
              Transliterated(Translit, [c], |Translit|) == Translit[j].1
    ensures (forall j :: 0 <= j < |Translit| ==> Translit[j].0 != c) ==>
              Transliterated(Translit, [c], |Translit|) == [c]
  {
    var n := |Translit|;
    assert Transliterated(Translit, [c], n) == LetterAfter(Translit, c, n) + Transliterated(Translit, [], n);
    TranslitKeysDistinct();
    forall i, k | 0 <= i < n && 0 <= k < n ensures Translit[k].0 !in Translit[i].1 {
      ReplacementUntouched(i, k);
    }
    forall j | 0 <= j < n && Translit[j].0 == c ensures LetterAfter(Translit, c, n) == Translit[j].1 {
      LetterAfterNamed(Translit, j, n);
    }
    if forall j :: 0 <= j < n ==> Translit[j].0 != c {
      LetterAfterUnnamed(Translit, c, n);
    }
  }

  // ----- to_safe_key: runs and the final strip -----

  /** The characters `[a-z0-9]`. */
  predicate IsKeyChar(c: char)
  {
    'a' <= c <= 'z' || '0' <= c <= '9'
  }

  /** The length of the run of characters outside `[a-z0-9]` that `s` starts with. */
  function RunLength(s: string): (n: nat)
    ensures n <= |s|
    ensures forall i :: 0 <= i < n ==> !IsKeyChar(s[i])
    ensures n < |s| ==> IsKeyChar(s[n])
  {
    if s != [] && !IsKeyChar(s[0]) then 1 + RunLength(s[1..]) else 0
  }

  /** No two `_` stand next to each other. */
  ghost predicate NoDoubleUnderscore(s: string)
  {
    forall i, j :: 0 <= i < j < |s| && j == i + 1 ==> s[i] != '_' || s[j] != '_'
  }

  /** `re.sub(r'[^a-z0-9]+', '_', s)`: every maximal run of characters outside
      `[a-z0-9]` becomes one `_`. */
  function CollapseRuns(s: string): (r: string)
    ensures r == [] <==> s == []
    ensures forall i :: 0 <= i < |r| ==> IsKeyChar(r[i]) || r[i] == '_'
    ensures NoDoubleUnderscore(r)
    ensures s != [] ==> (r[0] == '_' <==> !IsKeyChar(s[0]))
    decreases |s|
  {
    if s == [] then []
    else if IsKeyChar(s[0]) then [s[0]] + CollapseRuns(s[1..])
    else var t := s[1..]; ['_'] + CollapseRuns(t[RunLength(t)..])
  }

  /** The number of `_` that `s` starts with. */
  function LeadingUnderscores(s: string): (n: nat)
    ensures n <= |s|
    ensures forall i :: 0 <= i < n ==> s[i] == '_'
    ensures n < |s| ==> s[n] != '_'
  {
    if s != [] && s[0] == '_' then 1 + LeadingUnderscores(s[1..]) else 0
  }

  /** `s.rstrip('_')`. */
  function DropTrailing(s: string): (r: string)
    ensures |r| <= |s| && forall i :: 0 <= i < |r| ==> r[i] == s[i]
    ensures forall i :: |r| <= i < |s| ==> s[i] == '_'
    ensures r != [] ==> r[|r| - 1] != '_'
  {
    if s != [] && s[|s| - 1] == '_' then DropTrailing(s[..|s| - 1]) else s
  }

  /** `s.strip('_')`: a key never starts or ends with `_`, and text that does not
      is left as it is. */
  function StripUnderscores(s: string): (r: string)
    ensures r != [] ==> r[0] != '_' && r[|r| - 1] != '_'
    ensures (s == [] || (s[0] != '_' && s[|s| - 1] != '_')) ==> r == s
  {
    DropTrailing(s[LeadingUnderscores(s)..])
  }

  /** `to_safe_key`, as a function of its input. */
  function SafeKey(text: string): string
  {
    StripUnderscores(CollapseRuns(Transliterated(Translit, LowerStr(text), |Translit|)))
  }

  /** Before any replacement the text is as it was. */
  lemma {:induction false} TransliteratedNone(d: seq<(char, string)>, s: string)
    ensures Transliterated(d, s, 0) == s
  {
    if s != [] {
      TransliteratedNone(d, s[1..]);
      assert s == [s[0]] + s[1..];
    }
  }

  /** `to_safe_key`: lower-case the text, run the dictionary's replacements one
      after the other, then collapse the runs and strip the underscores. */
  method ToSafeKey(text: string) returns (key: string)
    ensures key == SafeKey(text)
  {
    var t := LowerStr(text);
    ghost var lowered := t;
    var i := 0;
    TransliteratedNone(Translit, lowered);
    while i < |Translit|
      invariant 0 <= i <= |Translit|
      invariant t == Transliterated(Translit, lowered, i)
    {
      TransliteratedStep(Translit, lowered, i);
      t := Replace(t, Translit[i].0, Translit[i].1);
      i := i + 1;
    }
    key := StripUnderscores(CollapseRuns(t));
  }

  /** The shape of every key: only `[a-z0-9_]`, no `_` at either end, and never
      two `_` in a row. */
  ghost predicate IsSafeKey(s: string)
  {
    && (forall i :: 0 <= i < |s| ==> IsKeyChar(s[i]) || s[i] == '_')
    && (s != [] ==> s[0] != '_' && s[|s| - 1] != '_')
    && NoDoubleUnderscore(s)
  }

  /** Stripping the underscores of a text of key characters without two `_` in
      a row gives a key. */
  lemma StripGivesKey(c: string)
    requires forall i :: 0 <= i < |c| ==> IsKeyChar(c[i]) || c[i] == '_'
    requires NoDoubleUnderscore(c)
    ensures IsSafeKey(StripUnderscores(c))
  {
    var off := LeadingUnderscores(c);
    var l := c[off..];
    var r := DropTrailing(l);
    forall i | 0 <= i < |r| ensures IsKeyChar(r[i]) || r[i] == '_' {
      assert r[i] == l[i] == c[i + off];
    }
    forall i, j | 0 <= i < j < |r| && j == i + 1 ensures r[i] != '_' || r[j] != '_' {
      assert r[i] == c[i + off] && r[j] == c[j + off];
    }
  }

  /** Every output of `to_safe_key` has the shape of a key. */
  lemma SafeKeyIsSafe(text: string)
    ensures IsSafeKey(SafeKey(text))
  {
    StripGivesKey(CollapseRuns(Transliterated(Translit, LowerStr(text), |Translit|)));
  }

  /** A text of `[a-z0-9_]` is left alone by a dictionary none of whose keys is
      such a character. */
  lemma {:induction false} TransliteratedKeys(d: seq<(char, string)>, s: string)
    requires forall j :: 0 <= j < |d| ==> !IsKeyChar(d[j].0) && d[j].0 != '_'
    requires forall i :: 0 <= i < |s| ==> IsKeyChar(s[i]) || s[i] == '_'
    ensures Transliterated(d, s, |d|) == s
  {
    if s != [] {
      TransliteratedKeys(d, s[1..]);
      LetterAfterUnnamed(d, s[0], |d|);
      assert s == [s[0]] + s[1..];
    }
  }

  /** No key of the dictionary is a character of `[a-z0-9_]`. */
  lemma TranslitKeysNotKeyChars()
    ensures forall j :: 0 <= j < |Translit| ==> !IsKeyChar(Translit[j].0) && Translit[j].0 != '_'
  {
    TranslitKeys();
    forall j | 0 <= j < |Translit| ensures !IsKeyChar(Translit[j].0) && Translit[j].0 != '_' {
      assert KeyCode(j) >= 0x430;
    }
  }

  /** Characters of a key are left alone by the transliteration. */
  lemma TransliterationKeepsKeys(s: string)
    requires forall i :: 0 <= i < |s| ==> IsKeyChar(s[i]) || s[i] == '_'
    ensures Transliterated(Translit, s, |Translit|) == s
  {
    TranslitKeysNotKeyChars();
    TransliteratedKeys(Translit, s);
  }

  /** A lone `_` before a key character stays a lone `_`. */
  lemma CollapseSingleUnderscore(s: string)
    requires |s| >= 2 && s[0] == '_' && IsKeyChar(s[1])
    ensures CollapseRuns(s) == ['_'] + CollapseRuns(s[1..])
  {
    assert RunLength(s[1..]) == 0;
  }

  /** A text of key characters without a trailing `_` or two `_` in a row is
      left as it is by collapsing. */
  lemma {:induction false} CollapseKeepsKeys(s: string)
    requires forall i :: 0 <= i < |s| ==> IsKeyChar(s[i]) || s[i] == '_'
    requires s != [] ==> s[|s| - 1] != '_'
    requires NoDoubleUnderscore(s)
    ensures CollapseRuns(s) == s
  {
    if s != [] {
      var t := s[1..];
      assert NoDoubleUnderscore(t) by {
        forall i, j | 0 <= i < j < |t| && j == i + 1 ensures t[i] != '_' || t[j] != '_' {
          assert t[i] == s[i + 1] && t[j] == s[j + 1];
        }
      }
      if !IsKeyChar(s[0]) {
        assert s[1] == t[0];
        CollapseSingleUnderscore(s);
      }
      CollapseKeepsKeys(t);
      assert s == [s[0]] + t;
    }
  }

  /** `to_safe_key` leaves a key as it is. */
  lemma SafeKeyKeepsKeys(k: string)
    requires IsSafeKey(k)
    ensures SafeKey(k) == k
  {
    assert LowerStr(k) == k;
    TransliterationKeepsKeys(k);
    CollapseKeepsKeys(k);
  }

  /** `to_safe_key` leaves its own output unchanged. */
  lemma SafeKeyIdempotent(text: string)
    ensures SafeKey(SafeKey(text)) == SafeKey(text)
  {
    SafeKeyIsSafe(text);
    SafeKeyKeepsKeys(SafeKey(text));
  }
}
