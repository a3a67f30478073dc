/** Resolving a partition key from a message's fields and a key template.

    Two passes, as `extractPartitionKey` makes them: first every field name
    that occurs as a whole word (between two regular-expression word
    boundaries) is replaced by the field's value, field by field in the order
    the message's data enumerates them; then every `word:word` pair of the
    result is rewritten, each side looked up as a field name and kept
    literally when it names no field. Word characters are [A-Za-z0-9_]. */
module KeyTemplate {

  /** One entry of a message's data object. */
  datatype Field = Field(name: string, value: string)

  /** A message's data, in the order `Object.entries` enumerates it. */
  type Fields = seq<Field>

  /** The regular-expression class `\w`. */
  predicate IsWordChar(c: char) {
    ('a' <= c <= 'z') || ('A' <= c <= 'Z') || ('0' <= c <= '9') || c == '_'
  }

  /** A non-empty run of word characters: what `\w+` matches. */
  predicate IsWord(s: string) {
    |s| > 0 && forall i :: 0 <= i < |s| ==> IsWordChar(s[i])
  }

  /** The data objects the source builds: field names are words (so that the
      pattern built from a name matches that name literally) and are distinct
      (they are the keys of one object). */
  predicate WellFormed(fields: Fields) {
    && (forall i :: 0 <= i < |fields| ==> IsWord(fields[i].name))
    && (forall i, j :: 0 <= i < j < |fields| ==> fields[i].name != fields[j].name)
  }

  /** The pattern `\b<f>\b` matches at the start of s, where prevWord says
      whether the character just before s is a word character: s starts
      with f, and `\b` holds before and after it (a word character on
      exactly one side; the start and the end of the input count as
      non-word). */
  predicate MatchesHere(s: string, f: string, prevWord: bool) {
    && 0 < |f| <= |s|
    && s[..|f|] == f
    && prevWord != IsWordChar(s[0])
    && IsWordChar(s[|f| - 1]) != (|f| < |s| && IsWordChar(s[|f|]))
  }

  /** `s.replace(new RegExp('\\b' + f + '\\b', 'g'), v)` on the rest s of the
      input: scan left to right, replace each whole-word match and resume
      after it. */
  function ReplaceWordScan(s: string, f: string, v: string, prevWord: bool): string
    requires IsWord(f)
    decreases |s|
  {
    if s == [] then []
    else if MatchesHere(s, f, prevWord) then v + ReplaceWordScan(s[|f|..], f, v, IsWordChar(s[|f| - 1]))
    else [s[0]] + ReplaceWordScan(s[1..], f, v, IsWordChar(s[0]))
  }

  function ReplaceWord(s: string, f: string, v: string): string
    requires IsWord(f)
  {
    ReplaceWordScan(s, f, v, false)
  }

  /** The first pass: each field's name replaced by its value, in order. */
  function SubstituteFields(key: string, fields: Fields): string
    requires forall i :: 0 <= i < |fields| ==> IsWord(fields[i].name)
    decreases |fields|
  {
    if fields == [] then key
    else SubstituteFields(ReplaceWord(key, fields[0].name, fields[0].value), fields[1..])
  }

  /** The end of the longest run of word characters starting at i. */
  function WordEnd(s: string, i: nat): (j: nat)
    requires i <= |s|
    ensures i <= j <= |s|
    ensures forall k :: i <= k < j ==> IsWordChar(s[k])
    ensures j == |s| || !IsWordChar(s[j])
    decreases |s| - i
  {
    if i < |s| && IsWordChar(s[i]) then WordEnd(s, i + 1) else i
  }

  /** The properties every plain object inherits from `Object.prototype`,
      each with what `${...}` prints for it: the built-in methods print as
      native functions (in V8's wording), `constructor` is the function `Object`, and
      `__proto__` is `Object.prototype` itself. */
  const Inherited: map<string, string> := map[
    "__defineGetter__" := "function __defineGetter__() { [native code] }",
    "__defineSetter__" := "function __defineSetter__() { [native code] }",
    "hasOwnProperty" := "function hasOwnProperty() { [native code] }",
    "__lookupGetter__" := "function __lookupGetter__() { [native code] }",
    "__lookupSetter__" := "function __lookupSetter__() { [native code] }",
    "isPrototypeOf" := "function isPrototypeOf() { [native code] }",
    "propertyIsEnumerable" := "function propertyIsEnumerable() { [native code] }",
    "toString" := "function toString() { [native code] }",
    "valueOf" := "function valueOf() { [native code] }",
    "toLocaleString" := "function toLocaleString() { [native code] }",
    "__proto__" := "[object Object]",
    "constructor" := "function Object() { [native code] }"
  ]

  /** `messageData[name] || name`: the value of the field called name when
      there is one and it is not the empty string (then name itself); with
      no such field, what an inherited property of that name prints as, and
      otherwise name itself. */
  function Lookup(fields: Fields, name: string): (r: string)
    ensures (forall i :: 0 <= i < |fields| ==> fields[i].name != name) ==>
              r == (if name in Inherited then Inherited[name] else name)
    ensures forall i :: 0 <= i < |fields| && fields[i].name == name
                        && (forall j :: 0 <= j < i ==> fields[j].name != name) ==>
                        r == (if fields[i].value != "" then fields[i].value else name)
  {
    if fields == [] then (if name in Inherited then Inherited[name] else name)
    else if fields[0].name == name then (if fields[0].value != "" then fields[0].value else name)
    else
      var r := Lookup(fields[1..], name);
      assert forall i :: 1 <= i < |fields| ==> fields[1..][i - 1] == fields[i];
      r
  }

  /** `/(\w+):(\w+)/g` from position i on. At each position the first `\w+`
      takes the longest word run (no shorter run can be followed by ':'), the
      second takes the longest run after the colon; on a match both sides are
      looked up and the scan resumes after the match, otherwise it moves on by
      one character. */
  function ResolvePairsFrom(s: string, fields: Fields, i: nat): string
    requires i <= |s|
    decreases |s| - i
  {
    if i == |s| then []
    else
      var j := WordEnd(s, i);
      if i < j && j + 1 < |s| && s[j] == ':' && IsWordChar(s[j + 1]) then
        var k := WordEnd(s, j + 1);
        Lookup(fields, s[i..j]) + ":" + Lookup(fields, s[j + 1..k]) + ResolvePairsFrom(s, fields, k)
      else
        [s[i]] + ResolvePairsFrom(s, fields, i + 1)
  }

  function ResolvePairs(s: string, fields: Fields): string {
    ResolvePairsFrom(s, fields, 0)
  }

  /** `extractPartitionKey(messageData, template)`. The `catch` fallback to the
      template is unreachable here: a pattern built from a word never fails to
      compile. */
  function ExtractPartitionKey(fields: Fields, template: string): string
    requires WellFormed(fields)
  {
    ResolvePairs(SubstituteFields(template, fields), fields)
  }

  // ---------------------------------------------------------------------
  // Whole-word substitution

  /** Right after a word character, a run of word characters holds no
      whole-word match and is copied unchanged. */
  lemma {:induction false} ReplaceWordAfterWord(w: string, f: string, v: string)
    requires IsWord(f)
    requires forall i :: 0 <= i < |w| ==> IsWordChar(w[i])
    ensures ReplaceWordScan(w, f, v, true) == w
    decreases |w|
  {
    if w != [] {
      assert !MatchesHere(w, f, true);
      ReplaceWordAfterWord(w[1..], f, v);
      assert w == [w[0]] + w[1..];
    }
  }

  /** Inside a single word a field name is replaced only when it is the whole
      word: `account_id` becomes its value, `account_id_suffix` stays as it is. */
  lemma ReplaceWordInWord(s: string, f: string, v: string)
    requires IsWord(s) && IsWord(f)
    ensures ReplaceWord(s, f, v) == if s == f then v else s
  {
    if s == f {
      assert s[..|f|] == f && s[|f|..] == [];
      assert MatchesHere(s, f, false);
      assert ReplaceWordScan(s[|f|..], f, v, true) == [];
    } else {
      assert !MatchesHere(s, f, false) by {
        if |f| == |s| {
          assert s[..|f|] == s;
        } else if |f| < |s| {
          assert IsWordChar(s[|f| - 1]) && IsWordChar(s[|f|]);
        }
      }
      ReplaceWordAfterWord(s[1..], f, v);
      assert s == [s[0]] + s[1..];
    }
  }

  /** A non-word separator after a non-empty a does not change whether f
      matches at the start of a, and a match lies within a. */
  lemma MatchesHereBeforeSeparator(a: string, sep: char, b: string, f: string, prevWord: bool)
    requires IsWord(f) && !IsWordChar(sep) && a != []
    ensures MatchesHere(a + [sep] + b, f, prevWord) == MatchesHere(a, f, prevWord)
    ensures MatchesHere(a, f, prevWord) ==> |f| <= |a|
  {
    var s := a + [sep] + b;
    assert s[0] == a[0];
    if |f| <= |a| {
      assert s[..|f|] == a[..|f|];
      assert s[|f| - 1] == a[|f| - 1];
      assert s[|f|] == if |f| < |a| then a[|f|] else sep;
    } else if |f| <= |s| {
      assert s[..|f|][|a|] == sep;
      assert f[|a|] != sep;
    }
  }

  /** No match starts at a non-word separator. */
  lemma ReplaceWordScanSeparator(sep: char, b: string, f: string, v: string, prevWord: bool)
    requires IsWord(f) && !IsWordChar(sep)
    ensures ReplaceWordScan([sep] + b, f, v, prevWord) == [sep] + ReplaceWordScan(b, f, v, false)
  {
    var s := [sep] + b;
    assert !MatchesHere(s, f, prevWord) by {
      if |f| <= |s| { assert s[..|f|][0] == sep; }
    }
    assert s[1..] == b;
  }

  /** What the scan emits at the start of s, and how far it moves. */
  lemma ReplaceWordScanUnfold(s: string, f: string, v: string, prevWord: bool)
    requires IsWord(f) && s != []
    ensures MatchesHere(s, f, prevWord) ==>
              ReplaceWordScan(s, f, v, prevWord) == v + ReplaceWordScan(s[|f|..], f, v, IsWordChar(s[|f| - 1]))
    ensures !MatchesHere(s, f, prevWord) ==>
              ReplaceWordScan(s, f, v, prevWord) == [s[0]] + ReplaceWordScan(s[1..], f, v, IsWordChar(s[0]))
  {
  }

  /** Dropping n characters of a from a + [sep] + b. */
  lemma DropBeforeSeparator(a: string, sep: char, b: string, n: nat)
    requires 1 <= n <= |a|
    ensures (a + [sep] + b)[n..] == a[n..] + [sep] + b
    ensures (a + [sep] + b)[n - 1] == a[n - 1] && (a + [sep] + b)[0] == a[0]
  {
  }

  /** Sequence concatenation regrouped. */
  lemma Regroup(h: string, x: string, sep: char, y: string)
    ensures h + (x + [sep] + y) == (h + x) + [sep] + y
  {
  }

  /** One step of the split: the scan of a + [sep] + b takes at the start of
      a the step it takes on a alone (n characters, leaving q as the previous
      character's class), so the split of the rest after that step carries
      over to the whole. */
  lemma ReplaceWordScanSplitStep(a: string, sep: char, b: string, f: string, v: string, prevWord: bool, n: nat, q: bool)
    requires IsWord(f) && !IsWordChar(sep) && a != []
    requires n == (if MatchesHere(a, f, prevWord) then |f| else 1) && n <= |a|
    requires q == IsWordChar(a[n - 1])
    requires ReplaceWordScan(a[n..] + [sep] + b, f, v, q)
             == ReplaceWordScan(a[n..], f, v, q) + [sep] + ReplaceWordScan(b, f, v, false)
    ensures ReplaceWordScan(a + [sep] + b, f, v, prevWord)
            == ReplaceWordScan(a, f, v, prevWord) + [sep] + ReplaceWordScan(b, f, v, false)
  {
    MatchesHereBeforeSeparator(a, sep, b, f, prevWord);
    DropBeforeSeparator(a, sep, b, n);
    var s := a + [sep] + b;
    var head := if MatchesHere(a, f, prevWord) then v else [a[0]];
    assert ReplaceWordScan(s, f, v, prevWord) == head + ReplaceWordScan(a[n..] + [sep] + b, f, v, q) by {
      ReplaceWordScanUnfold(s, f, v, prevWord);
    }
    assert ReplaceWordScan(a, f, v, prevWord) == head + ReplaceWordScan(a[n..], f, v, q) by {
      ReplaceWordScanUnfold(a, f, v, prevWord);
    }
    Regroup(head, ReplaceWordScan(a[n..], f, v, q), sep, ReplaceWordScan(b, f, v, false));
  }

  /** A non-word separator splits the scan: no match spans it, and the scan
      after it starts afresh. */
  lemma {:induction false} ReplaceWordScanSplit(a: string, sep: char, b: string, f: string, v: string, prevWord: bool)
    requires IsWord(f) && !IsWordChar(sep)
    ensures ReplaceWordScan(a + [sep] + b, f, v, prevWord)
            == ReplaceWordScan(a, f, v, prevWord) + [sep] + ReplaceWordScan(b, f, v, false)
    decreases |a|
  {
    if a == [] {
      assert a + [sep] + b == [sep] + b;
      ReplaceWordScanSeparator(sep, b, f, v, prevWord);
    } else {
      MatchesHereBeforeSeparator(a, sep, b, f, prevWord);
      var n := if MatchesHere(a, f, prevWord) then |f| else 1;
      var q := IsWordChar(a[n - 1]);
      ReplaceWordScanSplit(a[n..], sep, b, f, v, q);
      ReplaceWordScanSplitStep(a, sep, b, f, v, prevWord, n, q);
    }
  }

  /** A non-word separator splits the substitution of one field. */
  lemma ReplaceWordSplit(a: string, sep: char, b: string, f: string, v: string)
    requires IsWord(f) && !IsWordChar(sep)
    ensures ReplaceWord(a + [sep] + b, f, v) == ReplaceWord(a, f, v) + [sep] + ReplaceWord(b, f, v)
  {
    ReplaceWordScanSplit(a, sep, b, f, v, false);
  }

  /** The whole first pass splits at a non-word separator. */
  lemma {:induction false} SubstituteFieldsSplit(a: string, sep: char, b: string, fields: Fields)
    requires forall i :: 0 <= i < |fields| ==> IsWord(fields[i].name)
    requires !IsWordChar(sep)
    ensures SubstituteFields(a + [sep] + b, fields)
            == SubstituteFields(a, fields) + [sep] + SubstituteFields(b, fields)
    decreases |fields|
  {
    if fields != [] {
      var f := fields[0];
      ReplaceWordSplit(a, sep, b, f.name, f.value);
      SubstituteFieldsSplit(ReplaceWord(a, f.name, f.value), sep, ReplaceWord(b, f.name, f.value), fields[1..]);
    }
  }

  // ---------------------------------------------------------------------
  // Pair resolution

  /** A key without a colon passes the second pass unchanged. */
  lemma {:induction false} ResolvePairsNoColon(s: string, fields: Fields, i: nat)
    requires i <= |s|
    requires forall k :: i <= k < |s| ==> s[k] != ':'
    ensures ResolvePairsFrom(s, fields, i) == s[i..]
    decreases |s| - i
  {
    if i < |s| {
      ResolvePairsNoColon(s, fields, i + 1);
      assert s[i..] == [s[i]] + s[i + 1..];
    }
  }

  /** A word of s that ends at a non-word character or at the end of s is
      one word run. */
  lemma {:induction false} WordEndOfWord(s: string, i: nat, n: nat)
    requires i + n <= |s|
    requires forall k :: i <= k < i + n ==> IsWordChar(s[k])
    requires i + n == |s| || !IsWordChar(s[i + n])
    ensures WordEnd(s, i) == i + n
    decreases n
  {
    if n > 0 {
      WordEndOfWord(s, i + 1, n - 1);
    }
  }

  /** A key made of a word, a colon at j and a word resolves as one pair. */
  lemma ResolveOnePair(s: string, j: nat, fields: Fields)
    requires 0 < j && j + 1 < |s| && s[j] == ':'
    requires forall k :: 0 <= k < j ==> IsWordChar(s[k])
    requires forall k :: j < k < |s| ==> IsWordChar(s[k])
    ensures ResolvePairs(s, fields) == Lookup(fields, s[..j]) + ":" + Lookup(fields, s[j + 1..])
  {
    WordEndOfWord(s, 0, j);
    WordEndOfWord(s, j + 1, |s| - j - 1);
    assert s[0..j] == s[..j] && s[j + 1..|s|] == s[j + 1..];
    assert ResolvePairsFrom(s, fields, |s|) == [];
    assert ResolvePairsFrom(s, fields, 0)
        == Lookup(fields, s[..j]) + ":" + Lookup(fields, s[j + 1..]) + ResolvePairsFrom(s, fields, |s|);
  }

  /** `a:b` for two words: each side is looked up on its own, so a side naming
      a field becomes its value and a side naming no field is kept literally. */
  lemma ResolvePairOfWords(a: string, b: string, fields: Fields)
    requires IsWord(a) && IsWord(b)
    ensures ResolvePairs(a + ":" + b, fields) == Lookup(fields, a) + ":" + Lookup(fields, b)
  {
    var s := a + ":" + b;
    var j := |a|;
    assert s[..j] == a && s[j] == ':' && s[j + 1..] == b;
    assert forall k :: j < k < |s| ==> s[k] == b[k - j - 1];
    ResolveOnePair(s, j, fields);
  }

  /** A word that names no field goes through the first pass untouched. */
  lemma {:induction false} SubstituteUnknownWord(w: string, fields: Fields)
    requires IsWord(w)
    requires forall i :: 0 <= i < |fields| ==> IsWord(fields[i].name) && fields[i].name != w
    ensures SubstituteFields(w, fields) == w
    decreases |fields|
  {
    if fields != [] {
      ReplaceWordInWord(w, fields[0].name, fields[0].value);
      SubstituteUnknownWord(w, fields[1..]);
    }
  }

  /** The first pass turns a field's name into its value, when the value is a
      word that names no field. */
  lemma {:induction false} SubstituteFieldName(fields: Fields, i: nat)
    requires WellFormed(fields) && i < |fields|
    requires IsWord(fields[i].value)
    requires forall k :: 0 <= k < |fields| ==> fields[k].name != fields[i].value
    ensures SubstituteFields(fields[i].name, fields) == fields[i].value
    decreases i
  {
    var w := fields[i].name;
    ReplaceWordInWord(w, fields[0].name, fields[0].value);
    var rest := fields[1..];
    assert forall k :: 0 <= k < |rest| ==> rest[k] == fields[k + 1];
    if i == 0 {
      SubstituteUnknownWord(fields[0].value, rest);
    } else {
      SubstituteFieldName(rest, i - 1);
    }
  }

  /** A key `a:b` of two words naming no field resolves to the lookup of
      each side: a name inherited from `Object.prototype` is replaced by what
      that property prints as. */
  lemma PairOfNonFields(fields: Fields, a: string, b: string)
    requires WellFormed(fields) && IsWord(a) && IsWord(b)
    requires forall k :: 0 <= k < |fields| ==> fields[k].name != a && fields[k].name != b
    ensures ExtractPartitionKey(fields, a + ":" + b)
            == (if a in Inherited then Inherited[a] else a) + ":" + (if b in Inherited then Inherited[b] else b)
  {
    assert a + ":" + b == a + [':'] + b;
    SubstituteFieldsSplit(a, ':', b, fields);
    SubstituteUnknownWord(a, fields);
    SubstituteUnknownWord(b, fields);
    ResolvePairOfWords(a, b, fields);
  }

  /** A key `a:b` of two words naming neither a field nor an inherited
      property is kept as it is. */
  lemma PairOfUnknownWords(fields: Fields, a: string, b: string)
    requires WellFormed(fields) && IsWord(a) && IsWord(b)
    requires forall k :: 0 <= k < |fields| ==> fields[k].name != a && fields[k].name != b
    requires a !in Inherited && b !in Inherited
    ensures ExtractPartitionKey(fields, a + ":" + b) == a + ":" + b
  {
    PairOfNonFields(fields, a, b);
  }

  /** A key `x:y` naming two fields resolves to their two values joined by a
      colon, when the values are words naming no field. */
  lemma PairOfFields(fields: Fields, i: nat, j: nat)
    requires WellFormed(fields) && i < |fields| && j < |fields|
    requires IsWord(fields[i].value) && IsWord(fields[j].value)
    requires forall k :: 0 <= k < |fields| ==> fields[k].name != fields[i].value && fields[k].name != fields[j].value
    requires fields[i].value !in Inherited && fields[j].value !in Inherited
    ensures ExtractPartitionKey(fields, fields[i].name + ":" + fields[j].name)
            == fields[i].value + ":" + fields[j].value
  {
    var x, y := fields[i].name, fields[j].name;
    assert x + ":" + y == x + [':'] + y;
    SubstituteFieldsSplit(x, ':', y, fields);
    SubstituteFieldName(fields, i);
    SubstituteFieldName(fields, j);
    assert fields[i].value + [':'] + fields[j].value == fields[i].value + ":" + fields[j].value;
    ResolvePairOfWords(fields[i].value, fields[j].value, fields);
  }

  // ---------------------------------------------------------------------
  // The examples the source offers for the template input

  /** The field names of the source's generated messages, in its order. */
  const SourceFieldNames: seq<string> := ["account_id", "record_id", "user_id", "region", "event_type"]

  /** The source's field names are distinct words. */
  lemma SourceNamesAreWords()
    ensures forall i :: 0 <= i < |SourceFieldNames| ==> IsWord(SourceFieldNames[i])
    ensures forall i, j :: 0 <= i < j < |SourceFieldNames| ==> SourceFieldNames[i] != SourceFieldNames[j]
  {
    var n := SourceFieldNames;
    assert IsWord(n[0]) && IsWord(n[1]) && IsWord(n[2]) && IsWord(n[3]) && IsWord(n[4]);
    assert n[0][0] == 'a' && n[1][0] == 'r' && n[2][0] == 'u' && n[3][0] == 'r' && n[4][0] == 'e';
    assert |n[1]| == 9 && |n[3]| == 6;
  }

  /** Message data with the source's field names and arbitrary values. */
  function SourceFields(account: string, record: string, user: string, region: string, event: string): (fs: Fields)
    ensures WellFormed(fs)
    ensures |fs| == |SourceFieldNames| && forall i :: 0 <= i < |fs| ==> fs[i].name == SourceFieldNames[i]
  {
    SourceNamesAreWords();
    var n := SourceFieldNames;
    [ Field(n[0], account), Field(n[1], record), Field(n[2], user), Field(n[3], region), Field(n[4], event) ]
  }

  /** `account_id:record_id` resolves to the two values joined by a colon, for
      any account and record values that are words naming no field (such as
      `acc_001` and `rec_101`). */
  lemma ExampleCompositeKey(account: string, record: string, user: string, region: string, event: string)
    requires IsWord(account) && account !in SourceFieldNames && account !in Inherited
    requires IsWord(record) && record !in SourceFieldNames && record !in Inherited
    ensures ExtractPartitionKey(SourceFields(account, record, user, region, event), "account_id" + ":" + "record_id")
            == account + ":" + record
  {
    var fs := SourceFields(account, record, user, region, event);
    PairOfFields(fs, 0, 1);
  }

  /** A field name inside a longer word is not substituted. */
  lemma ExampleSuffixUnchanged(account: string, record: string, user: string, region: string, event: string)
    ensures ExtractPartitionKey(SourceFields(account, record, user, region, event), "account_id_suffix")
            == "account_id_suffix"
  {
    var fs := SourceFields(account, record, user, region, event);
    var s := "account_id_suffix";
    SubstituteUnknownWord(s, fs);
    ResolvePairsNoColon(s, fs, 0);
  }

  /** `tenant` and `shard` are words that name none of the source's fields
      and no inherited property. */
  lemma UnknownNames()
    ensures IsWord("tenant") && IsWord("shard")
    ensures "tenant" !in SourceFieldNames && "shard" !in SourceFieldNames
    ensures "tenant" !in Inherited && "shard" !in Inherited
  {
    var n := SourceFieldNames;
    assert n[0][0] == 'a' && n[1][0] == 'r' && n[2][0] == 'u' && n[3][0] == 'r' && n[4][0] == 'e';
    assert "tenant"[0] == 't' && "shard"[0] == 's';
  }

  /** A pair naming no field is kept literally. */
  lemma ExampleUnknownPair(account: string, record: string, user: string, region: string, event: string)
    ensures ExtractPartitionKey(SourceFields(account, record, user, region, event), "tenant" + ":" + "shard")
            == "tenant" + ":" + "shard"
  {
    var fs := SourceFields(account, record, user, region, event);
    UnknownNames();
    PairOfUnknownWords(fs, "tenant", "shard");
  }

  /** `constructor` names no field of a message but is inherited from
      `Object.prototype`: the key prints the function `Object` in its place. */
  lemma ExampleConstructorKey(account: string, record: string, user: string, region: string, event: string)
    ensures ExtractPartitionKey(SourceFields(account, record, user, region, event), "constructor" + ":" + "x")
            == "function Object() { [native code] }" + ":" + "x"
  {
    var fs := SourceFields(account, record, user, region, event);
    assert IsWord("constructor") && IsWord("x");
    assert "constructor" !in SourceFieldNames && "x" !in SourceFieldNames;
    assert "x" !in Inherited;
    PairOfNonFields(fs, "constructor", "x");
  }
}
