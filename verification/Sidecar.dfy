/** The text of a checksum file: printing it, parsing it, updating it and looking a checksum up. */
module Sidecar {
  import opened Bytes
  import opened HdfsReplies

  /** One checksum: `ChecksumValue` of the source. */
  datatype Entry = Entry(name: Text, value: Text)

  /** `toupper` of the C locale. */
  function Upper(c: byte): byte {
    if 0x61 <= c <= 0x7A then c - 0x20 else c
  }

  function UpperText(t: Text): (u: Text)
    ensures |u| == |t|
  {
    seq(|t|, i requires 0 <= i < |t| => Upper(t[i]))
  }

  /** `strcasecmp` finds no difference. */
  predicate SameName(a: Text, b: Text) {
    UpperText(a) == UpperText(b)
  }

  predicate Letter(c: byte) {
    0x41 <= c <= 0x5A || 0x61 <= c <= 0x7A
  }

  /** Two characters differ at most in case. */
  predicate SameChar(a: byte, b: byte) {
    a == b || (Letter(a) && a ^ b == 0x20)
  }

  lemma {:induction false} UpperIs(a: byte, b: byte)
    ensures Upper(a) == Upper(b) <==> SameChar(a, b)
    ensures !(0x61 <= Upper(a) <= 0x7A)
    ensures !(0x61 <= a <= 0x7A) ==> Upper(a) == a
  {
  }

  /** Names are the same exactly when they differ at most in the case of letters. */
  lemma {:induction false} SameNameIff(a: Text, b: Text)
    ensures SameName(a, b) <==> |a| == |b| && forall i :: 0 <= i < |a| ==> SameChar(a[i], b[i])
  {
    hide Upper, SameChar;
    if |a| == |b| {
      forall i | 0 <= i < |a|
        ensures UpperText(a)[i] == UpperText(b)[i] <==> SameChar(a[i], b[i])
      {
        UpperIs(a[i], b[i]);
      }
    }
  }

  /** The stored form of a name is the name in another case, without lower-case letters. */
  lemma {:induction false} UpperTextIs(t: Text)
    ensures SameName(UpperText(t), t)
    ensures forall i :: 0 <= i < |t| ==> !(0x61 <= UpperText(t)[i] <= 0x7A)
  {
    hide Upper;
    UpperTextTwice(t);
    forall i | 0 <= i < |t|
      ensures !(0x61 <= UpperText(t)[i] <= 0x7A)
    {
      UpperIs(t[i], t[i]);
    }
  }

  lemma {:induction false} UpperTextTwice(t: Text)
    ensures UpperText(UpperText(t)) == UpperText(t)
  {
    hide Upper;
    forall i | 0 <= i < |t|
      ensures Upper(Upper(t[i])) == Upper(t[i])
    {
      UpperIs(t[i], t[i]);
      UpperIs(Upper(t[i]), t[i]);
    }
  }

  function UpperNames(values: seq<Entry>): (upper: seq<Entry>)
    ensures |upper| == |values|
  {
    seq(|values|, i requires 0 <= i < |values| => Entry(UpperText(values[i].name), values[i].value))
  }

  // ---------- printing ----------

  function Line(e: Entry): Text {
    UpperText(e.name) + [COLON] + e.value + [NEWLINE]
  }

  function Print(values: seq<Entry>): Text {
    if values == [] then [] else Line(values[0]) + Print(values[1..])
  }

  lemma {:induction false} PrintLast(values: seq<Entry>, e: Entry)
    ensures Print(values + [e]) == Print(values) + Line(e)
  {
    hide Line;
    if values == [] {
      assert (values + [e])[1..] == [];
      assert Print([e]) == Line(e) + Print([e][1..]);
    } else {
      assert (values + [e])[1..] == values[1..] + [e];
      PrintLast(values[1..], e);
    }
  }

  /** The printing loop of `SetMultiple`. */
  method PrintAll(values: seq<Entry>) returns (ss: Text)
    ensures ss == Print(values)
  {
    ss := [];
    var iter := 0;
    while iter < |values|
      invariant iter <= |values| && ss == Print(values[..iter])
    {
      var name := UpperText(values[iter].name);
      assert values[..iter + 1] == values[..iter] + [values[iter]];
      PrintLast(values[..iter], values[iter]);
      ss := ss + (name + [COLON] + values[iter].value + [NEWLINE]);
      iter := iter + 1;
    }
    assert values[..iter] == values;
  }

  // ---------- parsing ----------

  /** The length of the white space `t` starts with. */
  function SpaceRun(t: Text): (n: nat)
    ensures n <= |t|
    ensures n < |t| ==> !IsSpace(t[n])
    ensures n > 0 ==> IsSpace(t[0])
  {
    if t == [] || !IsSpace(t[0]) then 0 else 1 + SpaceRun(t[1..])
  }

  /** The length of the word `t` starts with. */
  function WordRun(t: Text): (n: nat)
    ensures n <= |t|
    ensures forall i :: 0 <= i < n ==> !IsSpace(t[i])
    ensures n < |t| ==> IsSpace(t[n])
  {
    if t == [] || IsSpace(t[0]) then 0 else 1 + WordRun(t[1..])
  }

  /** `strchr(t, ':')`, or the length of `t`. */
  function FirstColon(t: Text): (n: nat)
    ensures n <= |t|
    ensures forall i :: 0 <= i < n ==> t[i] != COLON
    ensures n < |t| ==> t[n] == COLON
  {
    if t == [] || t[0] == COLON then 0 else 1 + FirstColon(t[1..])
  }

  /** A return code and the entries found before returning. */
  datatype Parsed = Parsed(rc: int, values: seq<Entry>)

  /** One word of the file: a name, a colon and a value. */
  function ParseWord(word: Text): Option<Entry> {
    var colon := FirstColon(word);
    if |word| < 2 || colon == |word| || colon + 1 == |word| then None
    else Some(Entry(word[..colon], word[colon + 1..]))
  }

  /** One round of the loop of `Parse`: it returns, or goes on behind the entry it found. */
  datatype Round = Return(rc: int, found: seq<Entry>) | GoOn(entry: Entry, at: nat)

  function FirstEntry(t: Text): (round: Round)
    ensures round.GoOn? ==> 0 < round.at < |t|
  {
    var start := SpaceRun(t);
    var end := start + WordRun(t[start..]);
    if end == start then Return(0, [])
    else match ParseWord(t[start..end])
      case None => Return(-EIO, [])
      case Some(e) =>
        if end == |t| then Return(0, [e])
        else if t[end] != NEWLINE then Return(-EIO, [e])
        else if end + 1 == |t| then Return(0, [e])
        else GoOn(e, end + 1)
  }

  /** The loop of `Parse` on what is left of a C string. */
  function ParseFrom(t: Text): Parsed
    decreases |t|
  {
    match FirstEntry(t)
    case Return(rc, found) => Parsed(rc, found)
    case GoOn(e, at) =>
      var later := ParseFrom(t[at..]);
      Parsed(later.rc, [e] + later.values)
  }

  /** `Parse` sees its argument as a C string. */
  function ParseText(contents: Text): Parsed {
    ParseFrom(CString(contents))
  }

  /** The body of the loop of `Parse`. */
  method ParseRound(ptr: Text) returns (round: Round)
    ensures round == FirstEntry(ptr)
  {
    hide SpaceRun, WordRun, FirstColon, IsSpace;
    var start := SpaceRun(ptr);
    var length := start + WordRun(ptr[start..]);
    if length == start {
      return Return(0, []);
    }
    var buffer := ptr[start..length];
    if |buffer| < 2 {
      return Return(-EIO, []);
    }
    var val := FirstColon(buffer);
    if val == |buffer| {
      return Return(-EIO, []);
    }
    var name := buffer[..val];
    val := val + 1;
    if val == |buffer| {
      return Return(-EIO, []);
    }
    var digestAndVal := Entry(name, buffer[val..]);
    if length == |ptr| {
      return Return(0, [digestAndVal]);
    }
    if ptr[length] != NEWLINE {
      return Return(-EIO, [digestAndVal]);
    }
    if length + 1 == |ptr| {
      return Return(0, [digestAndVal]);
    }
    return GoOn(digestAndVal, length + 1);
  }

  method Parse(contents: Text) returns (rc: int, result: seq<Entry>)
    ensures Parsed(rc, result) == ParseText(contents)
  {
    hide FirstEntry, CString;
    var ptr := CString(contents);
    ghost var text := ptr;
    result := [];
    while true
      invariant ParseFrom(text) == Parsed(ParseFrom(ptr).rc, result + ParseFrom(ptr).values)
      decreases |ptr|
    {
      var round := ParseRound(ptr);
      match round
      case Return(code, found) =>
        return code, result + found;
      case GoOn(entry, at) =>
        ghost var later := ParseFrom(ptr[at..]).values;
        assert result + ([entry] + later) == (result + [entry]) + later;
        result := result + [entry];
        ptr := ptr[at..];
    }
  }

  // ---------- printing and parsing ----------

  /** What can be stored: a name without white space, NUL or colon, and a non-empty value without white
      space or NUL. */
  ghost predicate Storable(e: Entry) {
    Plain(e.name) && COLON !in e.name && e.value != [] && Plain(e.value)
  }

  ghost predicate AllStorable(values: seq<Entry>) {
    forall i :: 0 <= i < |values| ==> Storable(values[i])
  }

  lemma {:induction false} UpperKeepsPlain(c: byte)
    ensures IsPlain(Upper(c)) <==> IsPlain(c)
    ensures Upper(c) == COLON <==> c == COLON
    ensures Upper(Upper(c)) == Upper(c)
  {
  }

  lemma {:induction false} UpperTextPlain(t: Text)
    ensures Plain(UpperText(t)) <==> Plain(t)
    ensures COLON in UpperText(t) <==> COLON in t
    ensures UpperText(UpperText(t)) == UpperText(t)
  {
    hide IsPlain, Upper;
    var u := UpperText(t);
    forall i | 0 <= i < |t|
      ensures IsPlain(u[i]) <==> IsPlain(t[i])
      ensures u[i] == COLON <==> t[i] == COLON
      ensures Upper(u[i]) == u[i]
    {
      UpperKeepsPlain(t[i]);
    }
  }

  lemma {:induction false} UpperNamesStorable(values: seq<Entry>)
    ensures AllStorable(UpperNames(values)) <==> AllStorable(values)
    ensures UpperNames(UpperNames(values)) == UpperNames(values)
  {
    hide UpperText, Plain;
    var upper := UpperNames(values);
    forall i | 0 <= i < |values|
      ensures Storable(upper[i]) <==> Storable(values[i])
      ensures UpperText(upper[i].name) == upper[i].name
    {
      UpperTextPlain(values[i].name);
    }
  }

  /** A run that is known to stop at `n` has length `n`. */
  lemma {:induction false} WordRunIs(t: Text, n: nat)
    requires n <= |t| && (forall i :: 0 <= i < n ==> !IsSpace(t[i])) && (n < |t| ==> IsSpace(t[n]))
    ensures WordRun(t) == n
  {
  }

  lemma {:induction false} FirstColonIs(t: Text, n: nat)
    requires n < |t| && t[n] == COLON && forall i :: 0 <= i < n ==> t[i] != COLON
    ensures FirstColon(t) == n
  {
  }

  lemma {:induction false} ParseOneLine(e: Entry, word: Text, more: Text)
    requires Storable(e) && word == UpperText(e.name) + [COLON] + e.value
    ensures SpaceRun(word + [NEWLINE] + more) == 0
    ensures WordRun(word + [NEWLINE] + more) == |word|
    ensures ParseWord(word) == Some(Entry(UpperText(e.name), e.value))
  {
    UpperTextPlain(e.name);
    var u := UpperText(e.name);
    var t := word + [NEWLINE] + more;
    forall i | 0 <= i < |word|
      ensures !IsSpace(t[i])
    {
      assert t[i] == word[i];
      if i < |u| {
        assert IsPlain(u[i]);
      } else if i > |u| {
        assert IsPlain(e.value[i - |u| - 1]);
      }
    }
    assert t[|word|] == NEWLINE;
    WordRunIs(t, |word|);
    FirstColonIs(word, |u|);
    assert word[..|u|] == u && word[|u| + 1..] == e.value;
  }

  lemma {:induction false} FirstEntryOfLine(e: Entry, more: Text)
    requires Storable(e)
    ensures var found := Entry(UpperText(e.name), e.value);
      FirstEntry(Line(e) + more) == if more == [] then Return(0, [found]) else GoOn(found, |Line(e)|)
  {
    hide Storable, ParseWord, UpperText;
    var word := UpperText(e.name) + [COLON] + e.value;
    var t := Line(e) + more;
    assert t == word + [NEWLINE] + more;
    ParseOneLine(e, word, more);
    assert t[0..] == t && t[..|word|] == word && t[|word|] == NEWLINE;
  }

  /** Parsing undoes printing, up to the case of the names. */
  lemma {:induction false} ParseUndoesPrint(values: seq<Entry>)
    requires AllStorable(values)
    ensures ParseFrom(Print(values)) == Parsed(0, UpperNames(values))
    decreases |values|
  {
    hide Storable, FirstEntry, Line, UpperText;
    if values == [] {
      NothingToParse();
    } else {
      var e, later := values[0], values[1..];
      FirstEntryOfLine(e, Print(later));
      ParseUndoesPrint(later);
      assert Print(values)[|Line(e)|..] == Print(later);
      assert UpperNames(values) == [Entry(UpperText(e.name), e.value)] + UpperNames(later);
      NonEmptyPrint(later);
    }
  }

  lemma {:induction false} NothingToParse()
    ensures FirstEntry([]) == Return(0, [])
  {
  }

  lemma {:induction false} NonEmptyPrint(values: seq<Entry>)
    ensures values != [] <==> Print(values) != []
  {
  }

  lemma {:induction false} FirstEntryStorable(t: Text)
    requires NulFree(t)
    ensures FirstEntry(t).Return? ==> AllStorable(FirstEntry(t).found)
    ensures FirstEntry(t).GoOn? ==> Storable(FirstEntry(t).entry)
  {
    hide Storable, ParseWord;
    var start := SpaceRun(t);
    WordStorable(t, start, start + WordRun(t[start..]));
  }

  /** Everything `Parse` finds can be stored, also when it then gives up. */
  lemma {:induction false} ParsedStorable(t: Text)
    requires NulFree(t)
    ensures AllStorable(ParseFrom(t).values)
    decreases |t|
  {
    hide Storable, FirstEntry;
    FirstEntryStorable(t);
    if FirstEntry(t).GoOn? {
      ParsedStorable(t[FirstEntry(t).at..]);
    }
  }

  lemma {:induction false} WordStorable(t: Text, start: nat, end: nat)
    requires NulFree(t) && start <= |t| && end == start + WordRun(t[start..])
    ensures ParseWord(t[start..end]).Some? ==> Storable(ParseWord(t[start..end]).value)
  {
    var word := t[start..end];
    forall i | 0 <= i < |word|
      ensures IsPlain(word[i])
    {
      assert word[i] == t[start..][i] && t[start + i] in t;
    }
    if ParseWord(word).Some? {
      var colon := FirstColon(word);
      var e := ParseWord(word).value;
      forall i | 0 <= i < |e.name|
        ensures IsPlain(e.name[i]) && e.name[i] != COLON
      {
        assert e.name[i] == word[i];
      }
      forall i | 0 <= i < |e.value|
        ensures IsPlain(e.value[i])
      {
        assert e.value[i] == word[colon + 1 + i];
      }
    }
  }

  lemma {:induction false} LineNulFree(e: Entry)
    requires Storable(e)
    ensures NulFree(Line(e))
  {
    UpperTextPlain(e.name);
    var l, u := Line(e), UpperText(e.name);
    forall i | 0 <= i < |l|
      ensures l[i] != NUL
    {
      if i < |u| {
        assert IsPlain(u[i]);
      } else if |u| < i < |l| - 1 {
        assert IsPlain(e.value[i - |u| - 1]);
      }
    }
  }

  lemma {:induction false} PrintNulFree(values: seq<Entry>)
    requires AllStorable(values)
    ensures NulFree(Print(values))
    decreases |values|
  {
    hide Line, Storable;
    if values != [] {
      LineNulFree(values[0]);
      PrintNulFree(values[1..]);
    }
  }

  /** A list survives printing and parsing, with its names in upper case, exactly when every entry can be stored. */
  lemma {:induction false} RoundTripIffStorable(values: seq<Entry>)
    ensures ParseText(Print(values)) == Parsed(0, UpperNames(values)) <==> AllStorable(values)
  {
    hide ParseFrom, Print, AllStorable;
    if AllStorable(values) {
      PrintNulFree(values);
      ParseUndoesPrint(values);
    }
    ParsedStorable(CString(Print(values)));
    UpperNamesStorable(values);
  }

  /** Reading any file without an error, writing it and reading it again changes no more than the case of
      the names; after that nothing changes. */
  lemma {:induction false} ReprintStable(contents: Text)
    requires ParseText(contents).rc == 0
    ensures var values := ParseText(contents).values;
      && ParseText(Print(values)) == Parsed(0, UpperNames(values))
      && Print(UpperNames(values)) == Print(values)
  {
    var values := ParseText(contents).values;
    ParsedStorable(CString(contents));
    RoundTripIffStorable(values);
    PrintUpper(values);
  }

  lemma {:induction false} PrintUpper(values: seq<Entry>)
    ensures Print(UpperNames(values)) == Print(values)
    decreases |values|
  {
    if values != [] {
      PrintUpper(values[1..]);
      UpperTextPlain(values[0].name);
      assert UpperNames(values)[1..] == UpperNames(values[1..]);
    }
  }

  // ---------- the grammar of a checksum file ----------

  predicate AllSpace(t: Text) {
    forall i :: 0 <= i < |t| ==> IsSpace(t[i])
  }

  /** A word of the file: a name, a colon and a value that is not empty. */
  function Word(e: Entry): Text {
    e.name + [COLON] + e.value
  }

  /** `t` starts with the word of the first entry; then it ends, or goes on with a newline and a text that
      reads as the other entries. */
  ghost predicate StartsWith(t: Text, values: seq<Entry>)
    requires values != []
    decreases |values|, 0
  {
    var word := Word(values[0]);
    && Storable(values[0]) && word <= t
    && if |t| == |word| then |values| == 1
       else t[|word|] == NEWLINE && Reads(t[|word| + 1..], values[1..])
  }

  /** The text `t` is a well-formed file with these entries: white space may stand before any of them and at
      the end. */
  ghost predicate Reads(t: Text, values: seq<Entry>)
    decreases |values|, 1
  {
    if values == [] then AllSpace(t)
    else exists k :: 0 <= k <= |t| && AllSpace(t[..k]) && StartsWith(t[k..], values)
  }

  lemma {:induction false} SpaceRunIs(t: Text, k: nat)
    requires k <= |t| && AllSpace(t[..k]) && (k < |t| ==> !IsSpace(t[k]))
    ensures SpaceRun(t) == k
    decreases k
  {
    hide IsSpace;
    if k > 0 {
      assert t[..k][0] == t[0];
      assert t[1..][..k - 1] == t[..k][1..];
      SpaceRunIs(t[1..], k - 1);
    }
  }

  lemma {:induction false} SpaceRunAll(t: Text)
    ensures AllSpace(t[..SpaceRun(t)])
  {
    hide IsSpace;
    if SpaceRun(t) > 0 {
      SpaceRunAll(t[1..]);
      assert t[..SpaceRun(t)] == [t[0]] + t[1..][..SpaceRun(t[1..])];
    }
  }

  lemma {:induction false} WordHasNoSpace(e: Entry)
    requires Storable(e)
    ensures |Word(e)| >= 2 && forall i :: 0 <= i < |Word(e)| ==> !IsSpace(Word(e)[i])
    ensures ParseWord(Word(e)) == Some(e)
  {
    var w, n := Word(e), |e.name|;
    forall i | 0 <= i < |w|
      ensures !IsSpace(w[i])
    {
      if i < n {
        assert IsPlain(e.name[i]);
      } else if i > n {
        assert IsPlain(e.value[i - n - 1]);
      }
    }
    FirstColonIs(w, n);
    assert w[..n] == e.name && w[n + 1..] == e.value;
  }

  lemma {:induction false} FirstEntryIs(t: Text, k: nat, e: Entry)
    requires k <= |t| && AllSpace(t[..k]) && Storable(e) && Word(e) <= t[k..]
    requires k + |Word(e)| < |t| ==> t[k + |Word(e)|] == NEWLINE
    ensures var end := k + |Word(e)|;
      FirstEntry(t) == if end == |t| || end + 1 == |t| then Return(0, [e]) else GoOn(e, end + 1)
  {
    hide IsSpace, Storable, ParseWord, Word;
    WordHasNoSpace(e);
    assert t[k] == t[k..][0];
    SpaceRunIs(t, k);
    NewlineIsSpace();
    WordRunIs(t[k..], |Word(e)|);
    assert t[k..k + |Word(e)|] == Word(e);
  }

  lemma {:induction false} NewlineIsSpace()
    ensures IsSpace(NEWLINE)
  {
  }

  /** `Parse` finds the entries of every well-formed file. */
  lemma {:induction false} ParseReads(t: Text, values: seq<Entry>)
    requires Reads(t, values)
    ensures ParseFrom(t) == Parsed(0, values)
    decreases |values|
  {
    hide IsSpace, Storable, FirstEntry, Word, AllSpace;
    if values == [] {
      SpaceOnly(t);
    } else {
      var k :| 0 <= k <= |t| && AllSpace(t[..k]) && StartsWith(t[k..], values);
      var end := k + |Word(values[0])|;
      FirstEntryIs(t, k, values[0]);
      assert values == [values[0]] + values[1..];
      if end < |t| {
        assert t[k..][end - k + 1..] == t[end + 1..];
        ParseReads(t[end + 1..], values[1..]);
        if end + 1 == |t| {
          NothingToParse();
        }
      }
    }
  }

  lemma {:induction false} SpaceOnly(t: Text)
    requires AllSpace(t)
    ensures FirstEntry(t) == Return(0, [])
  {
    hide IsSpace;
    assert t[..|t|] == t;
    SpaceRunIs(t, |t|);
  }

  lemma {:induction false} ParsedWord(word: Text)
    requires ParseWord(word).Some?
    ensures Word(ParseWord(word).value) == word
  {
    var n := FirstColon(word);
    assert word == word[..n] + [word[n]] + word[n + 1..];
  }

  /** What one round has read, if it did not fail. */
  lemma {:induction false} RoundReads(t: Text)
    requires NulFree(t)
    ensures var round, k := FirstEntry(t), SpaceRun(t);
      && (round.Return? ==> round.rc == 0 || round.rc == -EIO)
      && (round == Return(0, []) ==> AllSpace(t))
      && (round.Return? && round.rc == 0 && round.found != [] ==> StartsWith(t[k..], round.found))
      && (round.GoOn? ==>
            && Storable(round.entry) && Word(round.entry) <= t[k..] && t[round.at - 1] == NEWLINE
            && round.at == k + |Word(round.entry)| + 1)
  {
    hide IsSpace, Storable, ParseWord, Word, AllSpace, SpaceRun, WordRun;
    var start := SpaceRun(t);
    var end := start + WordRun(t[start..]);
    SpaceRunAll(t);
    WordStorable(t, start, end);
    if end == start {
      assert t[..|t|] == t;
    } else if ParseWord(t[start..end]).Some? {
      ParsedWord(t[start..end]);
      assert t[start..end] == t[start..][..end - start];
      if end + 1 == |t| {
        EndsHere(t[start..][end - start + 1..]);
      }
    }
  }

  lemma {:induction false} EndsHere(t: Text)
    requires t == []
    ensures Reads(t, [])
  {
  }

  /** And what it does not find in a well-formed file, it reports. */
  lemma {:induction false} ParsedReads(t: Text)
    requires NulFree(t)
    ensures ParseFrom(t).rc == 0 || ParseFrom(t).rc == -EIO
    ensures ParseFrom(t).rc == 0 ==> Reads(t, ParseFrom(t).values)
    decreases |t|
  {
    hide IsSpace, Storable, FirstEntry, Word, AllSpace;
    var round, k := FirstEntry(t), SpaceRun(t);
    RoundReads(t);
    SpaceRunAll(t);
    if round.GoOn? {
      var rest := t[round.at..];
      ParsedReads(rest);
      assert t[k..][round.at - k..] == rest && t[k..][round.at - k - 1] == NEWLINE;
      assert ([round.entry] + ParseFrom(rest).values)[1..] == ParseFrom(rest).values;
    }
  }

  /** `Parse` is exactly the reading of the grammar: it succeeds with these entries if and only if the text
      reads as them, and reports -EIO if the text reads as no list. */
  lemma {:induction false} ParseIffReads(t: Text, values: seq<Entry>)
    requires NulFree(t)
    ensures ParseText(t) == Parsed(0, values) <==> Reads(t, values)
    ensures (forall any :: !Reads(t, any)) <==> ParseText(t).rc == -EIO
    ensures ParseText(t).rc == 0 || ParseText(t).rc == -EIO
  {
    hide ParseFrom, Reads;
    ParsedReads(t);
    if Reads(t, values) {
      ParseReads(t, values);
    }
    if any :| Reads(t, any) {
      ParseReads(t, any);
    }
  }

  // ---------- what the printer writes ----------

  ghost predicate EndsLine(t: Text) {
    t != [] && t[|t| - 1] == NEWLINE
  }

  lemma {:induction false} LineIsWord(e: Entry)
    ensures Line(e) == Word(Entry(UpperText(e.name), e.value)) + [NEWLINE]
  {
  }

  lemma {:induction false} NotEmptyReads(t: Text, values: seq<Entry>)
    requires Reads(t, values) && values != []
    ensures t != []
  {
    hide Storable;
  }

  lemma {:induction false} FirstLine(u: Text, values: seq<Entry>)
    requires values != [] && StartsWith(u, values) && EndsLine(u)
    ensures var line := Word(values[0]) + [NEWLINE];
      && line <= u && u == line + u[|line|..] && Reads(u[|line|..], values[1..])
      && (|values| > 1 ==> EndsLine(u[|line|..]))
  {
    hide IsSpace, Storable, Word, AllSpace, Reads;
    var word := Word(values[0]);
    WordHasNoSpace(values[0]);
    NewlineIsSpace();
    assert u[|u| - 1] == NEWLINE;
    assert |u| > |word|;
    assert u[|word| + 1..] == u[|word + [NEWLINE]|..];
    if |values| > 1 {
      NotEmptyReads(u[|word| + 1..], values[1..]);
    }
  }

  /** A text that reads as the printed list, and ends its last line, is no shorter than the print; if it is as
      long, it is the print. */
  lemma {:induction false} PrintShortest(t: Text, values: seq<Entry>)
    requires Reads(t, UpperNames(values)) && (values == [] || EndsLine(t))
    ensures |Print(values)| <= |t| && (|Print(values)| == |t| ==> t == Print(values))
    decreases |values|
  {
    hide IsSpace, Storable, Word, AllSpace, Line, UpperText, StartsWith;
    if values != [] {
      var upper := UpperNames(values);
      var k :| 0 <= k <= |t| && AllSpace(t[..k]) && StartsWith(t[k..], upper);
      LineIsWord(values[0]);
      StartsNotEmpty(t[k..], upper);
      assert t[k..][|t| - k - 1] == NEWLINE;
      FirstLine(t[k..], upper);
      assert upper[1..] == UpperNames(values[1..]);
      hide Reads, UpperNames;
      var rest := t[k..][|Line(values[0])|..];
      PrintShortest(rest, values[1..]);
      assert t == t[..k] + t[k..];
    }
  }

  lemma {:induction false} StartsNotEmpty(u: Text, values: seq<Entry>)
    requires values != [] && StartsWith(u, values)
    ensures u != []
  {
    hide Storable, Reads;
    WordHasNoSpace(values[0]);
  }

  /** The printer writes the shortest such text there is. */
  lemma {:induction false} PrintReads(values: seq<Entry>)
    requires AllStorable(values)
    ensures Reads(Print(values), UpperNames(values)) && (values == [] || EndsLine(Print(values)))
  {
    hide Print, Reads, ParseFrom, UpperNames, AllStorable;
    PrintNulFree(values);
    RoundTripIffStorable(values);
    ParseIffReads(Print(values), UpperNames(values));
    PrintEndsLine(values);
  }

  lemma {:induction false} PrintEndsLine(values: seq<Entry>)
    ensures values == [] || EndsLine(Print(values))
    decreases |values|
  {
    hide UpperText;
    if values != [] {
      PrintEndsLine(values[1..]);
    }
  }
}
