/** main.py `clean_text_for_pdf`: an ordered table of substitutions applied
    one after another with `str.replace`, then every character with code
    point 256 or more dropped, so that the text fits Latin-1 (ISO-8859-1). */
module PdfText {

  /** The substitution table as Python's dict holds it: keys in insertion
      order, a repeated key keeping its first position. Two entries differ
      from what the layout of main.py:245-248 suggests. Lines 245 and 246
      both map the ASCII double quote to itself. Lines 247-248 begin with
      three apostrophes, so Python reads them as ONE triple-quoted key (the
      15 characters from the colon of line 247 to the indentation of line
      248) mapped to an apostrophe. */
  const Replacements: seq<(string, string)> := Emoji + Rest

  /** Everything after the four emoji, in table order. */
  const Rest: seq<(string, string)> := Punctuation + Operators + Sets + Logic
    + GreekLowerFirst + GreekLowerSecond + GreekUpperFirst + GreekUpperSecond

  /** The emoji of the recommendation messages (main.py:234-237). The
      warning sign is followed by a variation selector, so its key is the
      table's only key of two characters. */
  const Emoji: seq<(string, string)> := [
    ("\U{1F4A1}", ""),  // main.py:234
    ("\U{26A0}\U{FE0F}", ""),  // main.py:235
    ("\U{1F527}", ""),  // main.py:236
    ("\U{1F4CA}", "")   // main.py:237
  ]

  /** Arrows, dashes, quotes and the Latin-1 signs (main.py:238-253). */
  const Punctuation: seq<(string, string)> := [
    ("\U{2192}", "->"),  // main.py:238
    ("\U{2190}", "<-"),  // main.py:239
    ("\U{2191}", "^"),  // main.py:240
    ("\U{2193}", "v"),  // main.py:241
    ("\U{2022}", "-"),  // main.py:242
    ("\U{2013}", "-"),  // main.py:243
    ("\U{2014}", "-"),  // main.py:244
    ("\"", "\""),  // main.py:245-246 (the same key twice)
    (": \"\'\",\n        ", "\'"),  // main.py:247-248 (one triple-quoted key)
    ("\U{2026}", "..."),  // main.py:249
    ("\U{B0}", " derajat"),  // main.py:250
    ("\U{B1}", "+/-"),  // main.py:251
    ("\U{D7}", "x"),  // main.py:252
    ("\U{F7}", "/")   // main.py:253
  ]

  /** Relations, operators and calculus signs (main.py:254-265; the
      repeated infinity key of line 281 keeps its place at line 258). */
  const Operators: seq<(string, string)> := [
    ("\U{2264}", "<="),  // main.py:254
    ("\U{2265}", ">="),  // main.py:255
    ("\U{2260}", "!="),  // main.py:256
    ("\U{2248}", "~"),  // main.py:257
    ("\U{221E}", "infinity"),  // main.py:258
    ("\U{2211}", "sum"),  // main.py:259
    ("\U{220F}", "product"),  // main.py:260
    ("\U{221A}", "sqrt"),  // main.py:261
    ("\U{222B}", "integral"),  // main.py:262
    ("\U{2202}", "partial"),  // main.py:263
    ("\U{2206}", "delta"),  // main.py:264
    ("\U{2207}", "nabla")   // main.py:265
  ]

  /** Set signs (main.py:266-272). */
  const Sets: seq<(string, string)> := [
    ("\U{2208}", "in"),  // main.py:266
    ("\U{2209}", "not in"),  // main.py:267
    ("\U{2282}", "subset"),  // main.py:268
    ("\U{2283}", "superset"),  // main.py:269
    ("\U{222A}", "union"),  // main.py:270
    ("\U{2229}", "intersection"),  // main.py:271
    ("\U{2205}", "empty")   // main.py:272
  ]

  /** Logic signs (main.py:273-280). */
  const Logic: seq<(string, string)> := [
    ("\U{2200}", "for all"),  // main.py:273
    ("\U{2203}", "exists"),  // main.py:274
    ("\U{2204}", "not exists"),  // main.py:275
    ("\U{2234}", "therefore"),  // main.py:276
    ("\U{2235}", "because"),  // main.py:277
    ("\U{2261}", "equivalent"),  // main.py:278
    ("\U{2245}", "congruent"),  // main.py:279
    ("\U{221D}", "proportional")   // main.py:280
  ]

  /** Lower-case Greek letters, alpha to mu (main.py:282-293). */
  const GreekLowerFirst: seq<(string, string)> := [
    ("\U{3B1}", "alpha"),  // main.py:282
    ("\U{3B2}", "beta"),  // main.py:283
    ("\U{3B3}", "gamma"),  // main.py:284
    ("\U{3B4}", "delta"),  // main.py:285
    ("\U{3B5}", "epsilon"),  // main.py:286
    ("\U{3B6}", "zeta"),  // main.py:287
    ("\U{3B7}", "eta"),  // main.py:288
    ("\U{3B8}", "theta"),  // main.py:289
    ("\U{3B9}", "iota"),  // main.py:290
    ("\U{3BA}", "kappa"),  // main.py:291
    ("\U{3BB}", "lambda"),  // main.py:292
    ("\U{3BC}", "mu")   // main.py:293
  ]

  /** Lower-case Greek letters, nu to omega (main.py:294-305). */
  const GreekLowerSecond: seq<(string, string)> := [
    ("\U{3BD}", "nu"),  // main.py:294
    ("\U{3BE}", "xi"),  // main.py:295
    ("\U{3BF}", "omicron"),  // main.py:296
    ("\U{3C0}", "pi"),  // main.py:297
    ("\U{3C1}", "rho"),  // main.py:298
    ("\U{3C3}", "sigma"),  // main.py:299
    ("\U{3C4}", "tau"),  // main.py:300
    ("\U{3C5}", "upsilon"),  // main.py:301
    ("\U{3C6}", "phi"),  // main.py:302
    ("\U{3C7}", "chi"),  // main.py:303
    ("\U{3C8}", "psi"),  // main.py:304
    ("\U{3C9}", "omega")   // main.py:305
  ]

  /** Upper-case Greek letters, Alpha to Mu (main.py:306-317). */
  const GreekUpperFirst: seq<(string, string)> := [
    ("\U{391}", "Alpha"),  // main.py:306
    ("\U{392}", "Beta"),  // main.py:307
    ("\U{393}", "Gamma"),  // main.py:308
    ("\U{394}", "Delta"),  // main.py:309
    ("\U{395}", "Epsilon"),  // main.py:310
    ("\U{396}", "Zeta"),  // main.py:311
    ("\U{397}", "Eta"),  // main.py:312
    ("\U{398}", "Theta"),  // main.py:313
    ("\U{399}", "Iota"),  // main.py:314
    ("\U{39A}", "Kappa"),  // main.py:315
    ("\U{39B}", "Lambda"),  // main.py:316
    ("\U{39C}", "Mu")   // main.py:317
  ]

  /** Upper-case Greek letters, Nu to Omega (main.py:318-329). */
  const GreekUpperSecond: seq<(string, string)> := [
    ("\U{39D}", "Nu"),  // main.py:318
    ("\U{39E}", "Xi"),  // main.py:319
    ("\U{39F}", "Omicron"),  // main.py:320
    ("\U{3A0}", "Pi"),  // main.py:321
    ("\U{3A1}", "Rho"),  // main.py:322
    ("\U{3A3}", "Sigma"),  // main.py:323
    ("\U{3A4}", "Tau"),  // main.py:324
    ("\U{3A5}", "Upsilon"),  // main.py:325
    ("\U{3A6}", "Phi"),  // main.py:326
    ("\U{3A7}", "Chi"),  // main.py:327
    ("\U{3A8}", "Psi"),  // main.py:328
    ("\U{3A9}", "Omega")   // main.py:329
  ]

  predicate Ascii(s: string)
  {
    forall i :: 0 <= i < |s| ==> s[i] as int < 128
  }

  predicate Latin1(s: string)
  {
    forall i :: 0 <= i < |s| ==> s[i] as int < 256
  }

  /** key occurs in s starting at position i. */
  predicate OccursAt(key: string, s: string, i: int)
  {
    0 <= i && i + |key| <= |s| && s[i..i + |key|] == key
  }

  predicate Occurs(key: string, s: string)
  {
    exists i | 0 <= i <= |s| :: OccursAt(key, s, i)
  }

  /** Python `s.replace("", value)`: value before every character and at the end. */
  function InsertEverywhere(s: string, value: string): string
  {
    if s == [] then value else value + [s[0]] + InsertEverywhere(s[1..], value)
  }

  /** Python `s.replace(key, value)`: scanning left to right, each
      non-overlapping occurrence of key is replaced by value. */
  function Replace(s: string, key: string, value: string): string
    decreases |s|
  {
    if key == [] then InsertEverywhere(s, value)
    else if |s| < |key| then s
    else if s[..|key|] == key then value + Replace(s[|key|..], key, value)
    else [s[0]] + Replace(s[1..], key, value)
  }

  /** The loop of main.py:333-334: the table's substitutions, in order. */
  function ApplyAll(table: seq<(string, string)>, s: string): string
    decreases |table|
  {
    if table == [] then s else ApplyAll(table[1..], Replace(s, table[0].0, table[0].1))
  }

  /** The comprehension of main.py:337: the characters below 256, in order. */
  function DropWide(s: string): (r: string)
    ensures Latin1(r)
    ensures Latin1(s) ==> r == s
    ensures |r| <= |s|
  {
    if s == [] then []
    else DropWide(s[..|s| - 1]) + (if s[|s| - 1] as int < 256 then [s[|s| - 1]] else [])
  }

  /** The result of `clean_text_for_pdf`. */
  function CleanText(text: string): string
  {
    DropWide(ApplyAll(Replacements, text))
  }

  /** main.py `clean_text_for_pdf`, with its two loops. */
  method CleanTextForPdf(text: string) returns (cleaned: string)
    ensures cleaned == CleanText(text)
    ensures Latin1(cleaned)
  {
    var replaced := text;
    var i := 0;
    while i < |Replacements|
      invariant 0 <= i <= |Replacements|
      invariant ApplyAll(Replacements[i..], replaced) == ApplyAll(Replacements, text)
    {
      var (unicodeChar, replacement) := Replacements[i];
      ApplyAllStep(Replacements, i, replaced);
      replaced := Replace(replaced, unicodeChar, replacement);
      i := i + 1;
    }
    cleaned := [];
    var j := 0;
    while j < |replaced|
      invariant 0 <= j <= |replaced|
      invariant cleaned == DropWide(replaced[..j])
    {
      assert replaced[..j + 1][..j] == replaced[..j];
      if replaced[j] as int < 256 {
        cleaned := cleaned + [replaced[j]];
      }
      j := j + 1;
    }
    assert replaced[..|replaced|] == replaced;
  }

  /** One more entry of the table applied. */
  lemma ApplyAllStep(table: seq<(string, string)>, i: nat, s: string)
    requires i < |table|
    ensures ApplyAll(table[i..], s) == ApplyAll(table[i + 1..], Replace(s, table[i].0, table[i].1))
  {
    assert table[i..][1..] == table[i + 1..];
  }

  /** Dropping wide characters splits over concatenation, so the characters
      kept stay in their relative order. */
  lemma {:induction false} DropWideConcat(a: string, b: string)
    ensures DropWide(a + b) == DropWide(a) + DropWide(b)
    decreases |b|
  {
    if b == [] {
      assert a + b == a;
    } else {
      var b', c := b[..|b| - 1], b[|b| - 1];
      var tail := if c as int < 256 then [c] else [];
      DropWideConcat(a, b');
      var ab := a + b;
      assert ab[..|ab| - 1] == a + b';
      assert ab[|ab| - 1] == c;
      assert DropWide(ab) == DropWide(a + b') + tail;
      assert DropWide(b) == DropWide(b') + tail;
    }
  }

  lemma DropWideSingle(c: char)
    ensures DropWide([c]) == if c as int < 256 then [c] else []
  {
    assert [c][..0] == [];
  }

  /** A key that does not occur leaves the text as it is. */
  lemma {:induction false} ReplaceAbsent(s: string, key: string, value: string)
    requires key != [] && !Occurs(key, s)
    ensures Replace(s, key, value) == s
    decreases |s|
  {
    if |s| >= |key| {
      assert !OccursAt(key, s, 0);
      forall i | OccursAt(key, s[1..], i)
        ensures OccursAt(key, s, i + 1)
      {
        assert s[1..][i..i + |key|] == s[i + 1..i + 1 + |key|];
      }
      assert !Occurs(key, s[1..]);
      ReplaceAbsent(s[1..], key, value);
    }
  }

  /** An entry mapping a key to itself (main.py:245-246) changes nothing. */
  lemma {:induction false} ReplaceSelf(s: string, key: string)
    ensures Replace(s, key, key) == s
    decreases |s|
  {
    if key == [] {
      InsertEmpty(s);
    } else if |s| >= |key| {
      if s[..|key|] == key {
        ReplaceSelf(s[|key|..], key);
      } else {
        ReplaceSelf(s[1..], key);
      }
    }
  }

  lemma {:induction false} InsertEmpty(s: string)
    ensures InsertEverywhere(s, "") == s
  {
    if s != [] {
      InsertEmpty(s[1..]);
    }
  }

  /** For a one-character key, each character is treated on its own: the
      key becomes its value and every other character is kept. */
  lemma ReplaceCharSingle(x: char, c: char, value: string)
    ensures Replace([x], [c], value) == if x == c then value else [x]
  {
    assert [x][1..] == [];
  }

  lemma {:induction false} ReplaceCharConcat(a: string, b: string, c: char, value: string)
    ensures Replace(a + b, [c], value) == Replace(a, [c], value) + Replace(b, [c], value)
    decreases |a|
  {
    if a == [] {
      assert a + b == b;
    } else {
      assert (a + b)[1..] == a[1..] + b;
      assert (a + b)[..1] == a[..1];
      ReplaceCharConcat(a[1..], b, c, value);
    }
  }

  /** After replacing a one-character key by a value without that
      character, the character is gone. */
  lemma {:induction false} ReplaceRemovesChar(s: string, c: char, value: string)
    requires c !in value
    ensures c !in Replace(s, [c], value)
    decreases |s|
  {
    if |s| >= 1 {
      ReplaceRemovesChar(s[1..], c, value);
    }
  }

  /** Replacing never introduces a character absent from the text and the value. */
  lemma {:induction false} ReplaceKeepsAbsent(s: string, key: string, value: string, c: char)
    requires c !in s && c !in value
    ensures c !in Replace(s, key, value)
    decreases |s|
  {
    if key == [] {
      InsertKeepsAbsent(s, value, c);
    } else if |s| >= |key| {
      if s[..|key|] == key {
        assert forall k :: 0 <= k < |s[|key|..]| ==> s[|key|..][k] == s[|key| + k];
        ReplaceKeepsAbsent(s[|key|..], key, value, c);
      } else {
        ReplaceKeepsAbsent(s[1..], key, value, c);
      }
    }
  }

  lemma {:induction false} InsertKeepsAbsent(s: string, value: string, c: char)
    requires c !in s && c !in value
    ensures c !in InsertEverywhere(s, value)
  {
    if s != [] {
      InsertKeepsAbsent(s[1..], value, c);
    }
  }

  /** A text in which every key either does not occur or maps to itself
      comes out of the table unchanged. */
  lemma {:induction false} ApplyAllUnchanged(table: seq<(string, string)>, s: string)
    requires forall j :: 0 <= j < |table| ==> !Occurs(table[j].0, s) || table[j].0 == table[j].1
    ensures ApplyAll(table, s) == s
    decreases |table|
  {
    if table != [] {
      if Occurs(table[0].0, s) {
        ReplaceSelf(s, table[0].0);
      } else {
        if table[0].0 == [] {
          assert OccursAt(table[0].0, s, 0);
        }
        ReplaceAbsent(s, table[0].0, table[0].1);
      }
      ApplyAllUnchanged(table[1..], s);
    }
  }

  lemma {:induction false} ApplyAllKeepsAbsent(table: seq<(string, string)>, s: string, c: char)
    requires c !in s
    requires forall j :: 0 <= j < |table| ==> c !in table[j].1
    ensures c !in ApplyAll(table, s)
    decreases |table|
  {
    if table != [] {
      ReplaceKeepsAbsent(s, table[0].0, table[0].1, c);
      ApplyAllKeepsAbsent(table[1..], Replace(s, table[0].0, table[0].1), c);
    }
  }

  /** A one-character key whose value, and every later value, lacks it is
      gone from the output of the table for every input. */
  lemma {:induction false} ApplyAllRemoves(table: seq<(string, string)>, s: string, k: nat, c: char)
    requires k < |table| && table[k].0 == [c]
    requires forall j :: k <= j < |table| ==> c !in table[j].1
    ensures c !in ApplyAll(table, s)
    decreases |table|
  {
    var s' := Replace(s, table[0].0, table[0].1);
    if k == 0 {
      ReplaceRemovesChar(s, c, table[0].1);
      ApplyAllKeepsAbsent(table[1..], s', c);
    } else {
      ApplyAllRemoves(table[1..], s', k - 1, c);
    }
  }

  /** Every value of a table is plain ASCII. */
  predicate AsciiValues(table: seq<(string, string)>)
  {
    forall j :: 0 <= j < |table| ==> Ascii(table[j].1)
  }

  lemma AsciiValuesConcat(a: seq<(string, string)>, b: seq<(string, string)>)
    requires AsciiValues(a) && AsciiValues(b)
    ensures AsciiValues(a + b)
  {
    forall j | 0 <= j < |a + b|
      ensures Ascii((a + b)[j].1)
    {
      if j >= |a| {
        assert (a + b)[j] == b[j - |a|];
      }
    }
  }

  /** Printable ASCII, codes 32 to 126; in particular no line break. */
  predicate Printable(s: string)
  {
    forall i :: 0 <= i < |s| ==> 32 <= s[i] as int < 127
  }

  /** An entry that acts on each character of a text without line breaks
      on its own: its value is printable, and its key either maps to
      itself, holds a line break (so it cannot occur), or is one character
      outside ASCII other than the two characters of the warning-sign key. */
  predicate Ordinary(e: (string, string))
  {
    && Printable(e.1)
    && (|| e.0 == e.1
        || '\n' in e.0
        || (|e.0| == 1 && e.0[0] as int >= 128 && e.0[0] != '\U{26A0}' && e.0[0] != '\U{FE0F}'))
  }

  predicate OrdinaryTable(table: seq<(string, string)>)
  {
    forall j :: 0 <= j < |table| ==> Ordinary(table[j])
  }

  lemma OrdinaryTableConcat(a: seq<(string, string)>, b: seq<(string, string)>)
    requires OrdinaryTable(a) && OrdinaryTable(b)
    ensures OrdinaryTable(a + b)
  {
    forall j | 0 <= j < |a + b|
      ensures Ordinary((a + b)[j])
    {
      if j >= |a| {
        assert (a + b)[j] == b[j - |a|];
      }
    }
  }

  /** One character outside ASCII, other than the two characters of the
      warning-sign key, replaced by a printable value: the form of every
      entry after line 253. */
  predicate SingleWide(e: (string, string))
  {
    |e.0| == 1 && e.0[0] as int >= 128 && e.0[0] != '\U{26A0}' && e.0[0] != '\U{FE0F}' && Printable(e.1)
  }

  lemma SingleWideOrdinary(table: seq<(string, string)>)
    requires forall j :: 0 <= j < |table| ==> SingleWide(table[j])
    ensures OrdinaryTable(table)
  {
    forall j | 0 <= j < |table|
      ensures Ordinary(table[j])
    {
      assert SingleWide(table[j]);
    }
  }

  /** The quote (index 7) maps to itself and the triple-quoted key (index 8)
      holds a line break; every other entry is single and wide. */
  lemma PunctuationOrdinary()
    ensures OrdinaryTable(Punctuation)
  {
    assert forall j :: 0 <= j < 7 ==> SingleWide(Punctuation[j]);
    assert forall j :: 9 <= j < 14 ==> SingleWide(Punctuation[j]);
    assert Punctuation[8].0[6] == '\n';
    forall j | 0 <= j < |Punctuation|
      ensures Ordinary(Punctuation[j])
    {
      if j != 7 && j != 8 {
        assert SingleWide(Punctuation[j]);
      }
    }
  }

  lemma OperatorsOrdinary()
    ensures OrdinaryTable(Operators)
  {
    assert forall j :: 0 <= j < |Operators| ==> SingleWide(Operators[j]);
    SingleWideOrdinary(Operators);
  }

  lemma SetsOrdinary()
    ensures OrdinaryTable(Sets)
  {
    assert forall j :: 0 <= j < |Sets| ==> SingleWide(Sets[j]);
    SingleWideOrdinary(Sets);
  }

  lemma LogicOrdinary()
    ensures OrdinaryTable(Logic)
  {
    assert forall j :: 0 <= j < |Logic| ==> SingleWide(Logic[j]);
    SingleWideOrdinary(Logic);
  }

  lemma GreekLowerFirstOrdinary()
    ensures OrdinaryTable(GreekLowerFirst)
  {
    assert forall j :: 0 <= j < |GreekLowerFirst| ==> SingleWide(GreekLowerFirst[j]);
    SingleWideOrdinary(GreekLowerFirst);
  }

  lemma GreekLowerSecondOrdinary()
    ensures OrdinaryTable(GreekLowerSecond)
  {
    assert forall j :: 0 <= j < |GreekLowerSecond| ==> SingleWide(GreekLowerSecond[j]);
    SingleWideOrdinary(GreekLowerSecond);
  }

  lemma GreekUpperFirstOrdinary()
    ensures OrdinaryTable(GreekUpperFirst)
  {
    assert forall j :: 0 <= j < |GreekUpperFirst| ==> SingleWide(GreekUpperFirst[j]);
    SingleWideOrdinary(GreekUpperFirst);
  }

  lemma GreekUpperSecondOrdinary()
    ensures OrdinaryTable(GreekUpperSecond)
  {
    assert forall j :: 0 <= j < |GreekUpperSecond| ==> SingleWide(GreekUpperSecond[j]);
    SingleWideOrdinary(GreekUpperSecond);
  }

  /** Every entry after the emoji is ordinary. */
  lemma RestOrdinary()
    ensures OrdinaryTable(Rest)
  {
    PunctuationOrdinary();
    OperatorsOrdinary();
    SetsOrdinary();
    LogicOrdinary();
    GreekLowerFirstOrdinary();
    GreekLowerSecondOrdinary();
    GreekUpperFirstOrdinary();
    GreekUpperSecondOrdinary();
    OrdinaryTableConcat(Punctuation, Operators);
    OrdinaryTableConcat(Punctuation + Operators, Sets);
    OrdinaryTableConcat(Punctuation + Operators + Sets, Logic);
    var t := Punctuation + Operators + Sets + Logic;
    OrdinaryTableConcat(t, GreekLowerFirst);
    OrdinaryTableConcat(t + GreekLowerFirst, GreekLowerSecond);
    OrdinaryTableConcat(t + GreekLowerFirst + GreekLowerSecond, GreekUpperFirst);
    OrdinaryTableConcat(t + GreekLowerFirst + GreekLowerSecond + GreekUpperFirst, GreekUpperSecond);
  }

  lemma OrdinaryAscii(table: seq<(string, string)>)
    requires OrdinaryTable(table)
    ensures AsciiValues(table)
  {
    forall j | 0 <= j < |table|
      ensures Ascii(table[j].1)
    {
      assert Printable(table[j].1);
    }
  }

  /** Every replacement value in the table is ASCII. */
  lemma ValuesAscii()
    ensures AsciiValues(Replacements)
  {
    assert AsciiValues(Emoji);
    RestOrdinary();
    OrdinaryAscii(Rest);
    AsciiValuesConcat(Emoji, Rest);
  }

  /** The table without its two-character key: the table that, once the
      wide characters are dropped, does the same to texts without line
      breaks (CleanTextPlain). */
  const Plain: seq<(string, string)> := [Emoji[0]] + (Emoji[2..] + Rest)

  lemma PlainOrdinary()
    ensures OrdinaryTable(Emoji[2..] + Rest) && OrdinaryTable(Plain)
  {
    RestOrdinary();
    assert OrdinaryTable(Emoji[2..]);
    OrdinaryTableConcat(Emoji[2..], Rest);
    assert Ordinary(Emoji[0]);
    OrdinaryTableConcat([Emoji[0]], Emoji[2..] + Rest);
  }

  /** The value of the first entry whose key is the one character c, and c
      itself when there is none: what the ordered table does to c. */
  function Lookup(table: seq<(string, string)>, c: char): string
    decreases |table|
  {
    if table == [] then [c]
    else if table[0].0 == [c] then table[0].1
    else Lookup(table[1..], c)
  }

  lemma {:induction false} LookupFirst(table: seq<(string, string)>, c: char, j: nat)
    requires j < |table| && table[j].0 == [c]
    requires forall i :: 0 <= i < j ==> table[i].0 != [c]
    ensures Lookup(table, c) == table[j].1
  {
    if j > 0 {
      assert table[0].0 != [c];
      LookupFirst(table[1..], c, j - 1);
    }
  }

  lemma {:induction false} LookupNone(table: seq<(string, string)>, c: char)
    requires forall j :: 0 <= j < |table| ==> table[j].0 != [c]
    ensures Lookup(table, c) == [c]
    decreases |table|
  {
    if table != [] {
      assert table[0].0 != [c];
      LookupNone(table[1..], c);
    }
  }

  /** A key that holds a line break does not occur in a text without one. */
  lemma LineBreakKeyAbsent(key: string, s: string)
    requires '\n' in key && '\n' !in s
    ensures !Occurs(key, s)
  {
    var k :| 0 <= k < |key| && key[k] == '\n';
    forall i | 0 <= i <= |s|
      ensures !OccursAt(key, s, i)
    {
      if i + |key| <= |s| {
        assert s[i..i + |key|][k] == s[i + k];
      }
    }
  }

  /** A one-character key occurs exactly where its character does. */
  lemma OccursChar(c: char, s: string)
    ensures Occurs([c], s) <==> c in s
  {
    if c in s {
      var i :| 0 <= i < |s| && s[i] == c;
      assert s[i..i + 1] == [c];
      assert OccursAt([c], s, i);
    } else {
      forall i | 0 <= i <= |s|
        ensures !OccursAt([c], s, i)
      {
        if i + 1 <= |s| {
          assert s[i..i + 1][0] == s[i];
        }
      }
    }
  }

  lemma NoLineBreakAfter(s: string, e: (string, string))
    requires Ordinary(e) && '\n' !in s
    ensures '\n' !in Replace(s, e.0, e.1)
  {
    PrintableNoBreak(e.1);
    ReplaceKeepsAbsent(s, e.0, e.1, '\n');
  }

  lemma PrintableNoBreak(s: string)
    requires Printable(s)
    ensures '\n' !in s
  {
  }

  /** On texts without line breaks an ordinary entry splits over
      concatenation. */
  lemma ReplaceOrdinaryConcat(a: string, b: string, e: (string, string))
    requires Ordinary(e) && '\n' !in a && '\n' !in b
    ensures Replace(a + b, e.0, e.1) == Replace(a, e.0, e.1) + Replace(b, e.0, e.1)
  {
    if e.0 == e.1 {
      ReplaceSelf(a + b, e.0);
      ReplaceSelf(a, e.0);
      ReplaceSelf(b, e.0);
    } else if '\n' in e.0 {
      assert '\n' !in a + b;
      LineBreakKeyAbsent(e.0, a + b);
      LineBreakKeyAbsent(e.0, a);
      LineBreakKeyAbsent(e.0, b);
      ReplaceAbsent(a + b, e.0, e.1);
      ReplaceAbsent(a, e.0, e.1);
      ReplaceAbsent(b, e.0, e.1);
    } else {
      assert e.0 == [e.0[0]];
      ReplaceCharConcat(a, b, e.0[0], e.1);
    }
  }

  /** An ordinary table splits over concatenation of texts without line breaks. */
  lemma {:induction false} OrdinaryConcat(table: seq<(string, string)>, a: string, b: string)
    requires OrdinaryTable(table) && '\n' !in a && '\n' !in b
    ensures ApplyAll(table, a + b) == ApplyAll(table, a) + ApplyAll(table, b)
    decreases |table|
  {
    if table != [] {
      var e := table[0];
      ReplaceOrdinaryConcat(a, b, e);
      NoLineBreakAfter(a, e);
      NoLineBreakAfter(b, e);
      assert OrdinaryTable(table[1..]);
      OrdinaryConcat(table[1..], Replace(a, e.0, e.1), Replace(b, e.0, e.1));
    }
  }

  /** An ordinary table leaves a printable text as it is. */
  lemma OrdinaryPrintable(table: seq<(string, string)>, v: string)
    requires OrdinaryTable(table) && Printable(v)
    ensures ApplyAll(table, v) == v
  {
    PrintableNoBreak(v);
    forall j | 0 <= j < |table| && table[j].0 != table[j].1
      ensures !Occurs(table[j].0, v)
    {
      var key := table[j].0;
      if '\n' in key {
        LineBreakKeyAbsent(key, v);
      } else {
        assert key == [key[0]];
        OccursChar(key[0], v);
      }
    }
    ApplyAllUnchanged(table, v);
  }

  /** What an ordinary table does to one character: the first matching
      value, or the character itself. */
  lemma {:induction false} OrdinaryChar(table: seq<(string, string)>, c: char)
    requires OrdinaryTable(table) && c != '\n'
    ensures ApplyAll(table, [c]) == Lookup(table, c)
    decreases |table|
  {
    if table != [] {
      var e := table[0];
      assert OrdinaryTable(table[1..]);
      if e.0 == [c] {
        ReplaceCharSingle(c, c, e.1);
        OrdinaryPrintable(table[1..], e.1);
      } else {
        if e.0 == e.1 {
          ReplaceSelf([c], e.0);
        } else if '\n' in e.0 {
          LineBreakKeyAbsent(e.0, [c]);
          ReplaceAbsent([c], e.0, e.1);
        } else {
          assert e.0 == [e.0[0]];
          ReplaceCharSingle(c, e.0[0], e.1);
        }
        OrdinaryChar(table[1..], c);
      }
    }
  }

  /** Replacing a key by nothing is invisible after the table and the drop
      of wide characters, when the key itself comes out empty. */
  lemma {:induction false} ReplaceInvisible(table: seq<(string, string)>, s: string, key: string)
    requires OrdinaryTable(table) && '\n' !in s && '\n' !in key && key != []
    requires DropWide(ApplyAll(table, key)) == []
    ensures DropWide(ApplyAll(table, Replace(s, key, ""))) == DropWide(ApplyAll(table, s))
    decreases |s|
  {
    if |s| >= |key| {
      if s[..|key|] == key {
        ReplaceInvisible(table, s[|key|..], key);
        InvisibleMatch(table, s, key);
      } else {
        ReplaceInvisible(table, s[1..], key);
        InvisibleMiss(table, s, key);
      }
    }
  }

  lemma InvisibleMatch(table: seq<(string, string)>, s: string, key: string)
    requires OrdinaryTable(table) && '\n' !in s && key != [] && |s| >= |key| && s[..|key|] == key
    requires DropWide(ApplyAll(table, key)) == []
    requires DropWide(ApplyAll(table, Replace(s[|key|..], key, ""))) == DropWide(ApplyAll(table, s[|key|..]))
    ensures DropWide(ApplyAll(table, Replace(s, key, ""))) == DropWide(ApplyAll(table, s))
  {
    ReplaceDeletes(s, key);
    InvisibleKey(table, key, s[|key|..]);
  }

  lemma InvisibleMiss(table: seq<(string, string)>, s: string, key: string)
    requires OrdinaryTable(table) && '\n' !in s && key != [] && |s| >= |key| && s[..|key|] != key
    requires DropWide(ApplyAll(table, Replace(s[1..], key, ""))) == DropWide(ApplyAll(table, s[1..]))
    ensures DropWide(ApplyAll(table, Replace(s, key, ""))) == DropWide(ApplyAll(table, s))
  {
    ReplaceKeepsAbsent(s[1..], key, "", '\n');
    ReplaceKeeps(s, key, "");
    InvisibleCons(table, s[0], Replace(s[1..], key, ""), s[1..]);
  }

  /** A leading occurrence of the key, replaced by nothing. */
  lemma ReplaceDeletes(s: string, key: string)
    requires key != [] && |s| >= |key| && s[..|key|] == key
    ensures Replace(s, key, "") == Replace(s[|key|..], key, "")
    ensures s == key + s[|key|..]
  {
    assert "" + Replace(s[|key|..], key, "") == Replace(s[|key|..], key, "");
  }

  /** A first character that does not start the key is kept. */
  lemma ReplaceKeeps(s: string, key: string, value: string)
    requires key != [] && |s| >= |key| && s[..|key|] != key
    ensures Replace(s, key, value) == [s[0]] + Replace(s[1..], key, value)
    ensures s == [s[0]] + s[1..]
  {
  }

  lemma InvisibleKey(table: seq<(string, string)>, key: string, rest: string)
    requires OrdinaryTable(table) && '\n' !in key && '\n' !in rest
    requires DropWide(ApplyAll(table, key)) == []
    ensures DropWide(ApplyAll(table, key + rest)) == DropWide(ApplyAll(table, rest))
  {
    OrdinaryConcat(table, key, rest);
    DropWideConcat(ApplyAll(table, key), ApplyAll(table, rest));
  }

  lemma InvisibleCons(table: seq<(string, string)>, c: char, x: string, y: string)
    requires OrdinaryTable(table) && c != '\n' && '\n' !in x && '\n' !in y
    requires DropWide(ApplyAll(table, x)) == DropWide(ApplyAll(table, y))
    ensures DropWide(ApplyAll(table, [c] + x)) == DropWide(ApplyAll(table, [c] + y))
  {
    OrdinaryConcat(table, [c], x);
    DropWideConcat(ApplyAll(table, [c]), ApplyAll(table, x));
    OrdinaryConcat(table, [c], y);
    DropWideConcat(ApplyAll(table, [c]), ApplyAll(table, y));
  }

  /** Neither character of the warning-sign key is a key of an ordinary table. */
  lemma OrdinaryNoKey(table: seq<(string, string)>, c: char)
    requires OrdinaryTable(table) && (c == '\U{26A0}' || c == '\U{FE0F}')
    ensures forall j :: 0 <= j < |table| ==> table[j].0 != [c]
  {
    forall j | 0 <= j < |table|
      ensures table[j].0 != [c]
    {
      assert Ordinary(table[j]);
      if table[j].0 == table[j].1 && |table[j].1| > 0 {
        assert 32 <= table[j].1[0] as int < 127;
      }
    }
  }

  /** The warning-sign key comes out of the rest of the table empty. */
  lemma WarningKeyInvisible()
    ensures DropWide(ApplyAll(Emoji[2..] + Rest, Emoji[1].0)) == []
  {
    PlainOrdinary();
    var t := Emoji[2..] + Rest;
    var w, v := '\U{26A0}', '\U{FE0F}';
    assert Emoji[1].0 == [w] + [v];
    OrdinaryConcat(t, [w], [v]);
    OrdinaryChar(t, w);
    OrdinaryChar(t, v);
    OrdinaryNoKey(t, w);
    OrdinaryNoKey(t, v);
    LookupNone(t, w);
    LookupNone(t, v);
    DropWideConcat([w], [v]);
    DropWideSingle(w);
    DropWideSingle(v);
  }

  /** On a text without line breaks, the sanitiser does what the table
      without its warning-sign key does. */
  lemma CleanTextPlain(s: string)
    requires '\n' !in s
    ensures CleanText(s) == DropWide(ApplyAll(Plain, s))
  {
    var t := Emoji[2..] + Rest;
    PlainOrdinary();
    var x := Replace(s, Emoji[0].0, Emoji[0].1);
    assert Replacements[0] == Emoji[0] && Replacements[1..][0] == Emoji[1];
    assert Replacements[1..][1..] == t;
    assert ApplyAll(Replacements, s) == ApplyAll(t, Replace(x, Emoji[1].0, ""));
    assert Ordinary(Emoji[0]);
    NoLineBreakAfter(s, Emoji[0]);
    WarningKeyInvisible();
    ReplaceInvisible(t, x, Emoji[1].0);
    assert Plain[0] == Emoji[0] && Plain[1..] == t;
  }

  /** On texts without line breaks the sanitiser works character by
      character: it splits over concatenation. */
  lemma CleanTextConcat(a: string, b: string)
    requires '\n' !in a && '\n' !in b
    ensures CleanText(a + b) == CleanText(a) + CleanText(b)
  {
    assert '\n' !in a + b;
    CleanTextPlain(a);
    CleanTextPlain(b);
    CleanTextPlain(a + b);
    PlainOrdinary();
    OrdinaryConcat(Plain, a, b);
    DropWideConcat(ApplyAll(Plain, a), ApplyAll(Plain, b));
  }

  /** What the sanitiser makes of one character other than a line break:
      the value of its one-character key when it has one, and otherwise the
      character itself when it is below 256 and nothing when it is not. */
  lemma CleanTextChar(c: char)
    requires c != '\n'
    ensures forall j :: 0 <= j < |Replacements| && Replacements[j].0 == [c]
                        && (forall i :: 0 <= i < j ==> Replacements[i].0 != [c])
                        ==> CleanText([c]) == Replacements[j].1
    ensures (forall j :: 0 <= j < |Replacements| ==> Replacements[j].0 != [c])
            ==> CleanText([c]) == if c as int < 256 then [c] else []
  {
    CleanTextLookup(c);
    ValuesAscii();
    forall j | 0 <= j < |Replacements| && Replacements[j].0 == [c]
               && (forall i :: 0 <= i < j ==> Replacements[i].0 != [c])
      ensures CleanText([c]) == Replacements[j].1
    {
      LookupFirst(Replacements, c, j);
      assert Ascii(Replacements[j].1);
    }
    if forall j :: 0 <= j < |Replacements| ==> Replacements[j].0 != [c] {
      LookupNone(Replacements, c);
      DropWideSingle(c);
    }
  }

  lemma CleanTextLookup(c: char)
    requires c != '\n'
    ensures CleanText([c]) == DropWide(Lookup(Replacements, c))
  {
    CleanTextPlain([c]);
    PlainOrdinary();
    OrdinaryChar(Plain, c);
    LookupPlain(c);
  }

  /** The two-character key never matches one character. */
  lemma LookupPlain(c: char)
    ensures Lookup(Replacements, c) == Lookup(Plain, c)
  {
    var t := Emoji[2..] + Rest;
    assert Plain[1..] == t && Replacements[1..][1..] == t;
    assert Replacements[0] == Plain[0] && Replacements[1..][0].0 != [c];
  }

  /** A Latin-1 text in which no table key occurs, except keys mapped to
      themselves, passes through unchanged. */
  lemma CleanTextUnchanged(text: string)
    requires Latin1(text)
    requires forall j :: 0 <= j < |Replacements| ==>
               !Occurs(Replacements[j].0, text) || Replacements[j].0 == Replacements[j].1
    ensures CleanText(text) == text
  {
    ApplyAllUnchanged(Replacements, text);
  }


  /** The four keys below 256 (degree, plus-minus, times, division) are
      substituted, not kept: none of them is left in any output. */
  lemma CleanTextRemovesLatin1Keys(text: string, c: char)
    requires c == '\U{B0}' || c == '\U{B1}' || c == '\U{D7}' || c == '\U{F7}'
    ensures c !in CleanText(text)
  {
    ValuesAscii();
    var k := if c == '\U{B0}' then 14 else if c == '\U{B1}' then 15 else if c == '\U{D7}' then 16 else 17;
    assert Replacements[k] == Punctuation[k - 4];
    forall j | k <= j < |Replacements|
      ensures c !in Replacements[j].1
    {
      assert Ascii(Replacements[j].1);
    }
    ApplyAllRemoves(Replacements, text, k, c);
    var r := ApplyAll(Replacements, text);
    DropWideKeepsAbsent(r, c);
  }

  lemma {:induction false} DropWideKeepsAbsent(s: string, c: char)
    requires c !in s
    ensures c !in DropWide(s)
  {
    if s != [] {
      DropWideKeepsAbsent(s[..|s| - 1], c);
    }
  }
}
