/**
 Which fields of a log entry are replaced, told from the letters of their keys
 (packages/logger/src/internal/redact.ts).
 */
module KeyMatching {
  import opened Options
  import opened Redaction
  import opened RedactionTheorems

  /** Lower-casing as it is for ASCII; of any other character it leaves at most one lower-case ASCII letter or digit. */
  ghost predicate Ordinary(lower: char -> string) {
    && (forall c :: 'a' <= c <= 'z' || '0' <= c <= '9' ==> lower(c) == [c])
    && (forall c :: 'A' <= c <= 'Z' ==> lower(c) == [(c as int + 32) as char])
    && (forall c, i, j :: 0 <= i < j < |lower(c)| ==> !(KeptChar(lower(c)[i]) && KeptChar(lower(c)[j])))
  }

  /** The first lower-case ASCII letter or digit. */
  function FirstKept(s: string): Option<char> {
    if s == "" then None
    else if 'a' <= s[0] <= 'z' || '0' <= s[0] <= '9' then Some(s[0])
    else FirstKept(s[1..])
  }

  /** What a character of a key is read as: a letter in lower case, a digit, or nothing. */
  function Letter(lower: char -> string, c: char): Option<char> {
    if 'a' <= c <= 'z' || '0' <= c <= '9' then Some(c)
    else if 'A' <= c <= 'Z' then Some((c as int + 32) as char)
    else FirstKept(lower(c))
  }

  /** `key` begins with the letters of `fragment`, in any case, and between them anything that is no letter or digit. */
  predicate SpellsHere(lower: char -> string, key: string, fragment: string) {
    fragment == "" ||
    (key != "" &&
     match Letter(lower, key[0])
     case None => SpellsHere(lower, key[1..], fragment)
     case Some(c) => c == fragment[0] && SpellsHere(lower, key[1..], fragment[1..]))
  }

  /** Somewhere in `key` the letters of `fragment` stand so. */
  predicate Spells(lower: char -> string, key: string, fragment: string) {
    SpellsHere(lower, key, fragment) || (key != "" && Spells(lower, key[1..], fragment))
  }

  // ----- The match is the spelling -----

  function Letters(lower: char -> string, key: string): string {
    if key == "" then ""
    else
      var c := Letter(lower, key[0]);
      (if c.Some? then [c.value] else "") + Letters(lower, key[1..])
  }

  lemma {:induction false} StrippedConcat(a: string, b: string)
    ensures Stripped(a + b) == Stripped(a) + Stripped(b)
  {
    if a == "" {
      assert a + b == b;
    } else {
      assert (a + b)[1..] == a[1..] + b;
      StrippedConcat(a[1..], b);
    }
  }

  lemma {:induction false} NothingStripped(s: string)
    requires forall i :: 0 <= i < |s| ==> !KeptChar(s[i])
    ensures Stripped(s) == ""
  {
    if s != "" {
      NothingStripped(s[1..]);
    }
  }

  lemma {:induction false} OneStripped(s: string)
    requires forall i, j :: 0 <= i < j < |s| ==> !(KeptChar(s[i]) && KeptChar(s[j]))
    ensures Stripped(s) == if FirstKept(s).Some? then [FirstKept(s).value] else ""
  {
    if s != "" {
      if KeptChar(s[0]) {
        assert forall i :: 0 <= i < |s[1..]| ==> s[1..][i] == s[i + 1];
        NothingStripped(s[1..]);
      } else {
        OneStripped(s[1..]);
      }
    }
  }

  lemma {:induction false} StrippedIsLetters(lower: char -> string, key: string)
    requires Ordinary(lower)
    ensures Stripped(Lower(lower, key)) == Letters(lower, key)
  {
    if key != "" {
      StrippedConcat(lower(key[0]), Lower(lower, key[1..]));
      StrippedIsLetters(lower, key[1..]);
      OneStripped(lower(key[0]));
    }
  }

  lemma {:induction false} SpellsHereIff(lower: char -> string, key: string, fragment: string)
    ensures SpellsHere(lower, key, fragment) <==> fragment <= Letters(lower, key)
  {
    if key != "" && fragment != "" {
      var c, rest := Letter(lower, key[0]), Letters(lower, key[1..]);
      if c.None? {
        SpellsHereIff(lower, key[1..], fragment);
      } else {
        SpellsHereIff(lower, key[1..], fragment[1..]);
        assert fragment == [fragment[0]] + fragment[1..];
        assert Letters(lower, key)[1..] == rest;
      }
    }
  }

  lemma IncludesFirst(text: string, c: char, part: string)
    ensures Includes([c] + text, part) <==> part <= [c] + text || Includes(text, part)
  {
    var longer := [c] + text;
    if Includes(longer, part) {
      var i :| 0 <= i <= |longer| && Occurs(longer, part, i);
      if i > 0 {
        assert text[i - 1..i - 1 + |part|] == longer[i..i + |part|];
        assert Occurs(text, part, i - 1);
      }
    }
    if part <= longer {
      assert Occurs(longer, part, 0);
    }
    if Includes(text, part) {
      var i :| 0 <= i <= |text| && Occurs(text, part, i);
      assert longer[i + 1..i + 1 + |part|] == text[i..i + |part|];
      assert Occurs(longer, part, i + 1);
    }
  }

  lemma IncludesPrefix(text: string, part: string)
    requires part <= text
    ensures Includes(text, part)
  {
    assert Occurs(text, part, 0);
  }

  lemma {:induction false} SpellsIff(lower: char -> string, key: string, fragment: string)
    ensures Spells(lower, key, fragment) <==> Includes(Letters(lower, key), fragment)
  {
    SpellsHereIff(lower, key, fragment);
    if key == "" {
      if Includes("", fragment) {
        var i :| 0 <= i <= 0 && Occurs("", fragment, i);
      }
    } else {
      SpellsIff(lower, key[1..], fragment);
      var rest := Letters(lower, key[1..]);
      if Letter(lower, key[0]).Some? {
        IncludesFirst(rest, Letter(lower, key[0]).value, fragment);
      } else {
        assert Letters(lower, key) == rest;
      }
    }
    if fragment <= Letters(lower, key) {
      IncludesPrefix(Letters(lower, key), fragment);
    }
  }

  /** Some configured fragment is spelled in the key. */
  ghost predicate SpellsOne(s: Settings, key: string) {
    exists i :: 0 <= i < |s.keyFragments| && Spells(s.lower, key, s.keyFragments[i])
  }

  lemma SensitiveIffSpelled(s: Settings, key: string)
    requires Ordinary(s.lower)
    ensures IsSensitiveKey(s, key) <==> SpellsOne(s, key)
  {
    StrippedIsLetters(s.lower, key);
    forall i | 0 <= i < |s.keyFragments|
      ensures Spells(s.lower, key, s.keyFragments[i]) <==> Includes(Letters(s.lower, key), s.keyFragments[i])
    {
      SpellsIff(s.lower, key, s.keyFragments[i]);
    }
  }

  // ----- What becomes of a field -----

  /**
   Wherever an object is rendered, a field whose key spells a configured fragment comes out as the replacement, and any
   other as its value is rendered there; the keys themselves stay.
   */
  lemma FieldIsReplacedIff(heap: Heap, s: Settings, v: Item, ancestors: set<Id>, depth: nat, i: nat)
    requires Closed(heap) && InHeap(heap, v) && Ordinary(s.lower)
    requires v.Ref? && v.id !in ancestors && !Exceeds(s, depth) && heap[v.id].ObjectNode?
    requires i < |heap[v.id].fields|
    ensures var r, field := Redact(heap, s, v, ancestors, depth), heap[v.id].fields[i];
            && r.Object? && |r.fields| == |heap[v.id].fields|
            && r.fields[i].0 == field.0
            && r.fields[i].1 == if SpellsOne(s, field.0) then Str(s.replacement)
                                else Redact(heap, s, field.1, ancestors + {v.id}, depth + 1)
  {
    SensitiveIffSpelled(s, heap[v.id].fields[i].0);
    EntryAt(heap, s, heap[v.id].fields, ancestors + {v.id}, depth + 1, i);
  }

  /** `word` is `fragment` with some of its letters in upper case. */
  predicate InSomeCase(word: string, fragment: string) {
    |word| == |fragment| &&
    forall i :: 0 <= i < |word| ==>
      && KeptChar(fragment[i])
      && (word[i] == fragment[i] || ('a' <= fragment[i] <= 'z' && word[i] == (fragment[i] as int - 32) as char))
  }

  lemma {:induction false} WordSpells(lower: char -> string, word: string, after: string, fragment: string)
    requires InSomeCase(word, fragment)
    ensures SpellsHere(lower, word + after, fragment)
  {
    if word != "" {
      assert (word + after)[1..] == word[1..] + after;
      assert InSomeCase(word[1..], fragment[1..]);
      WordSpells(lower, word[1..], after, fragment[1..]);
    }
  }

  lemma {:induction false} WordSpellsInside(lower: char -> string, before: string, rest: string, fragment: string)
    requires SpellsHere(lower, rest, fragment)
    ensures Spells(lower, before + rest, fragment)
  {
    if before == "" {
      assert before + rest == rest;
    } else {
      assert (before + rest)[1..] == before[1..] + rest;
      WordSpellsInside(lower, before[1..], rest, fragment);
    }
  }

  /** So a key with a fragment anywhere in it, in whatever case, is replaced. */
  lemma FragmentInAnyCase(heap: Heap, s: Settings, v: Item, ancestors: set<Id>, depth: nat, i: nat, k: nat,
                          before: string, word: string, after: string)
    requires Closed(heap) && InHeap(heap, v) && Ordinary(s.lower)
    requires v.Ref? && v.id !in ancestors && !Exceeds(s, depth) && heap[v.id].ObjectNode?
    requires i < |heap[v.id].fields| && heap[v.id].fields[i].0 == before + (word + after)
    requires k < |s.keyFragments| && InSomeCase(word, s.keyFragments[k])
    ensures Redact(heap, s, v, ancestors, depth).Object?
    ensures i < |Redact(heap, s, v, ancestors, depth).fields|
    ensures Redact(heap, s, v, ancestors, depth).fields[i].1 == Str(s.replacement)
  {
    WordSpells(s.lower, word, after, s.keyFragments[k]);
    WordSpellsInside(s.lower, before, word + after, s.keyFragments[k]);
    FieldIsReplacedIff(heap, s, v, ancestors, depth, i);
  }

  /** A log entry of one field. */
  function OneField(key: string, value: Item): Heap {
    map[0 := ObjectNode([(key, value)])]
  }

  lemma OneFieldIsReplaced(s: Settings, key: string, value: Item, k: nat, before: string, word: string)
    requires Ordinary(s.lower) && !Exceeds(s, 0) && !value.Ref?
    requires k < |s.keyFragments| && InSomeCase(word, s.keyFragments[k]) && key == before + word
    ensures Closed(OneField(key, value))
    ensures Redact(OneField(key, value), s, Ref(0), {}, 0) == Object([(key, Str(s.replacement))])
  {
    assert key == before + (word + "");
    FragmentInAnyCase(OneField(key, value), s, Ref(0), {}, 0, 0, k, before, word, "");
    FieldIsReplacedIff(OneField(key, value), s, Ref(0), {}, 0, 0);
  }

  lemma UsualNames()
    ensures InSomeCase("Authorization", "authorization") && InSomeCase("apiKey", "apikey")
    ensures InSomeCase("Password", "password")
  {
  }

  lemma DefaultPlaces()
    ensures DEFAULT_KEY_FRAGMENTS[0] == "password" && DEFAULT_KEY_FRAGMENTS[5] == "apikey"
    ensures DEFAULT_KEY_FRAGMENTS[6] == "authorization"
  {
  }

  /** With the default fragments, whatever is added to them, the usual headers and keys are replaced. */
  lemma DefaultsHideCredentials(s: Settings, key: string, value: Item)
    requires Ordinary(s.lower) && DEFAULT_KEY_FRAGMENTS <= s.keyFragments && !Exceeds(s, 0) && !value.Ref?
    requires key == "Authorization" || key == "apiKey" || key == "db" + "Password"
    ensures Closed(OneField(key, value))
    ensures Redact(OneField(key, value), s, Ref(0), {}, 0) == Object([(key, Str(s.replacement))])
  {
    UsualNames();
    DefaultPlaces();
    var k := if key == "Authorization" then 6 else if key == "apiKey" then 5 else 0;
    assert s.keyFragments[k] == DEFAULT_KEY_FRAGMENTS[k];
    if k == 0 {
      OneFieldIsReplaced(s, key, value, k, "db", "Password");
    } else {
      assert key == "" + key;
      OneFieldIsReplaced(s, key, value, k, "", key);
    }
  }

  lemma SpelledInEither(lower: char -> string, a: seq<string>, b: seq<string>, key: string)
    ensures (exists i :: 0 <= i < |a + b| && Spells(lower, key, (a + b)[i])) <==>
              || (exists i :: 0 <= i < |a| && Spells(lower, key, a[i]))
              || (exists i :: 0 <= i < |b| && Spells(lower, key, b[i]))
  {
    if i :| 0 <= i < |a + b| && Spells(lower, key, (a + b)[i]) {
      assert if i < |a| then Spells(lower, key, a[i]) else Spells(lower, key, b[i - |a|]);
    }
    if i :| 0 <= i < |a| && Spells(lower, key, a[i]) {
      assert (a + b)[i] == a[i];
    }
    if i :| 0 <= i < |b| && Spells(lower, key, b[i]) {
      assert (a + b)[|a| + i] == b[i];
    }
  }

  lemma ShapedInEither(a: seq<string -> bool>, b: seq<string -> bool>, text: string)
    ensures IsSecretShaped(text, a + b) <==> IsSecretShaped(text, a) || IsSecretShaped(text, b)
  {
    if i :| 0 <= i < |a| && a[i](text) {
      assert (a + b)[i] == a[i];
    }
    if i :| 0 <= i < |b| && b[i](text) {
      assert (a + b)[|a| + i] == b[i];
    }
  }

  /** Options only add: whatever is replaced with none is replaced with any, keys and secret-shaped strings alike. */
  lemma OptionsOnlyAdd(lower: char -> string, defaultPatterns: seq<string -> bool>, keyFragments: seq<string>,
                       patterns: seq<string -> bool>, replacement: Option<string>, maxDepth: Option<Option<int>>,
                       key: string, text: string)
    ensures var plain := WithDefaults(lower, defaultPatterns, [], [], None, None);
            var custom := WithDefaults(lower, defaultPatterns, keyFragments, patterns, replacement, maxDepth);
            && plain.keyFragments == DEFAULT_KEY_FRAGMENTS && plain.replacement == "[REDACTED]"
            && plain.maxDepth == Some(20) && plain.patterns == defaultPatterns
            && (SpellsOne(custom, key) <==>
                  SpellsOne(plain, key) || exists i :: 0 <= i < |keyFragments| && Spells(lower, key, keyFragments[i]))
            && (IsSecretShaped(text, custom.patterns) <==>
                  IsSecretShaped(text, plain.patterns) || IsSecretShaped(text, patterns))
            && (replacement.Some? ==> custom.replacement == replacement.value)
            && (maxDepth.Some? ==> custom.maxDepth == maxDepth.value)
  {
    SpelledInEither(lower, DEFAULT_KEY_FRAGMENTS, keyFragments, key);
    ShapedInEither(defaultPatterns, patterns, text);
    assert DEFAULT_KEY_FRAGMENTS + [] == DEFAULT_KEY_FRAGMENTS && defaultPatterns + [] == defaultPatterns;
  }

  // ----- Custom fragments -----

  lemma {:induction false} LettersAreKept(lower: char -> string, key: string)
    ensures forall c :: c in Letters(lower, key) ==> KeptChar(c)
  {
    if key != "" {
      LettersAreKept(lower, key[1..]);
      FirstKeptIsKept(lower(key[0]));
    }
  }

  lemma {:induction false} FirstKeptIsKept(s: string)
    ensures FirstKept(s).Some? ==> KeptChar(FirstKept(s).value)
  {
    if s != "" {
      FirstKeptIsKept(s[1..]);
    }
  }

  lemma IncludedChars(text: string, part: string, c: char)
    requires Includes(text, part) && c in part
    ensures c in text
  {
    var i :| 0 <= i < |part| && part[i] == c;
    var j :| 0 <= j <= |text| && Occurs(text, part, j);
    assert text[j..j + |part|][i] == text[j + i];
  }

  lemma NeverSpelled(lower: char -> string, key: string, fragment: string, c: char)
    requires c in fragment && !KeptChar(c)
    ensures !Spells(lower, key, fragment)
  {
    SpellsIff(lower, key, fragment);
    LettersAreKept(lower, key);
    if Includes(Letters(lower, key), fragment) {
      IncludedChars(Letters(lower, key), fragment, c);
    }
  }

  lemma {:induction false} KeptSpellsItself(lower: char -> string, text: string)
    requires Ordinary(lower) && forall c :: c in text ==> KeptChar(c)
    ensures Spells(lower, text, text) && Lower(lower, text) == text
  {
    assert InSomeCase(text, text);
    WordSpells(lower, text, "", text);
    assert text + "" == text;
    KeptIsLower(lower, text);
  }

  lemma {:induction false} KeptIsLower(lower: char -> string, text: string)
    requires Ordinary(lower) && forall c :: c in text ==> KeptChar(c)
    ensures Lower(lower, text) == text
  {
    if text != "" {
      assert KeptChar(text[0]);
      KeptIsLower(lower, text[1..]);
      assert [text[0]] + text[1..] == text;
    }
  }

  /** The entry's only field comes out as the replacement. */
  ghost predicate Replaces(s: Settings, key: string) {
    Closed(OneField(key, Nil(true)))
    && Redact(OneField(key, Nil(true)), s, Ref(0), {}, 0) == Object([(key, Str(s.replacement))])
  }

  lemma ReplacesIff(s: Settings, key: string)
    requires Ordinary(s.lower) && !Exceeds(s, 1)
    ensures Replaces(s, key) <==> SpellsOne(s, key)
  {
    var heap := OneField(key, Nil(true));
    FieldIsReplacedIff(heap, s, Ref(0), {}, 0, 0);
    assert Redact(heap, s, Nil(true), {0}, 1) == Leaf(Nil(true));
  }

  /**
   A fragment is documented to be matched without regard to case. With it as the only one, exactly the fields whose keys
   it is documented to match are replaced if and only if lower-casing leaves it as it is, or gives it some character
   that no key is read as, so that it matches nothing either way.
   */
  lemma FragmentsMatchAsDocumentedIff(s: Settings, fragment: string)
    requires Ordinary(s.lower) && s.keyFragments == [fragment] && !Exceeds(s, 1)
    ensures (forall key :: Replaces(s, key) <==> Spells(s.lower, key, Lower(s.lower, fragment)))
            <==> Lower(s.lower, fragment) == fragment || exists c :: c in Lower(s.lower, fragment) && !KeptChar(c)
  {
    var lowered := Lower(s.lower, fragment);
    forall key
      ensures Replaces(s, key) <==> Spells(s.lower, key, fragment)
    {
      ReplacesIff(s, key);
      assert s.keyFragments[0] == fragment;
    }
    if lowered != fragment {
      if forall c :: c in fragment ==> KeptChar(c) {
        KeptIsLower(s.lower, fragment);
      }
      var c :| c in fragment && !KeptChar(c);
      forall key
        ensures !Spells(s.lower, key, fragment)
      {
        NeverSpelled(s.lower, key, fragment, c);
      }
      if d :| d in lowered && !KeptChar(d) {
        forall key
          ensures !Spells(s.lower, key, lowered)
        {
          NeverSpelled(s.lower, key, lowered, d);
        }
      } else {
        KeptSpellsItself(s.lower, lowered);
        assert !(Replaces(s, lowered) <==> Spells(s.lower, lowered, lowered));
      }
    }
  }
}
