/** The text format of base/ConfigFileReader.cpp: what a file means, and what is written for a map. */
module ConfigText {
  import opened CStrings
  import opened Sequences

  /** fgets is given 256 chars: one chunk holds 255 of them. */
  const CHUNK := 255

  /** snprintf into 128 chars. */
  const PAIR_ROOM := 127

  datatype Option<T> = None | Some(value: T)

  predicate IsBlank(c: char) {
    c == ' ' || c == '\t' || c == '\r'
  }

  function TrimLeft(s: string): string {
    if s != "" && IsBlank(s[0]) then TrimLeft(s[1..]) else s
  }

  function TrimRight(s: string): string {
    if s != "" && IsBlank(s[|s| - 1]) then TrimRight(s[..|s| - 1]) else s
  }

  /** trimSpace: nothing left stands for its null result. */
  function Trim(s: string): string {
    TrimRight(TrimLeft(s))
  }

  /** A chunk of fgets: through the first newline, but no more than 255 chars. */
  function ChunkLength(content: string): (n: nat)
    ensures n <= |content| && (content != "" ==> n >= 1)
  {
    var n := |Until(content, '\n')|;
    if n < CHUNK then (if n < |content| then n + 1 else n) else CHUNK
  }

  function ParsePair(line: string): Option<(string, string)> {
    var left := Until(line, '=');
    if |left| == |line| then None
    else
      BothSides(Trim(left), Trim(line[|left| + 1..]))
  }

  function BothSides(key: string, value: string): Option<(string, string)> {
    if key != "" && value != "" then Some((key, value)) else None
  }

  /** A chunk without its newline and its comment. */
  function Payload(chunk: string): string {
    Until(Until(chunk, '\n'), '#')
  }

  function Insert(m: map<string, string>, pair: Option<(string, string)>): map<string, string> {
    if pair.None? || pair.value.0 in m then m else m[pair.value.0 := pair.value.1]
  }

  /** loadFile: chunk after chunk; of two entries with one key the first stays. */
  function Load(content: string, m: map<string, string>): map<string, string>
    decreases |content|
  {
    if content == "" then m
    else
      var n := ChunkLength(content);
      Load(content[n..], Insert(m, ParsePair(Payload(content[..n]))))
  }

  /** What writeFile puts down for one pair. */
  function Line(key: string, value: string): (l: string)
    ensures |l| <= PAIR_ROOM
  {
    var full := key + "=" + value + "\n";
    if |full| <= PAIR_ROOM then full else full[..PAIR_ROOM]
  }

  /** The file for the pairs of `m` in the order of `keys`. */
  function Write(keys: seq<string>, m: map<string, string>): string
    requires forall k :: k in keys ==> k in m
  {
    if keys == [] then "" else Line(keys[0], m[keys[0]]) + Write(keys[1..], m)
  }

  // ---------- What loading can produce ----------

  predicate Trimmed(s: string) {
    s != "" && !IsBlank(s[0]) && !IsBlank(s[|s| - 1])
  }

  predicate CleanKey(k: string) {
    Trimmed(k) && '\n' !in k && '#' !in k && '=' !in k
  }

  predicate CleanValue(v: string) {
    Trimmed(v) && '\n' !in v && '#' !in v
  }

  predicate Clean(m: map<string, string>) {
    forall k :: k in m ==> CleanKey(k) && CleanValue(m[k])
  }

  predicate Blank(s: string) {
    forall i :: 0 <= i < |s| ==> IsBlank(s[i])
  }

  lemma {:induction false} TrimLeftPart(s: string) returns (i: nat)
    ensures i <= |s| && TrimLeft(s) == s[i..] && Blank(s[..i])
    ensures TrimLeft(s) != "" ==> !IsBlank(TrimLeft(s)[0])
    decreases |s|
  {
    if s != "" && IsBlank(s[0]) {
      i := TrimLeftPart(s[1..]);
      assert s[1..][i..] == s[i + 1..] && s[..i + 1] == [s[0]] + s[1..][..i];
      i := i + 1;
    } else {
      i := 0;
    }
  }

  lemma {:induction false} TrimRightPart(s: string) returns (j: nat)
    ensures j <= |s| && TrimRight(s) == s[..j] && Blank(s[j..])
    ensures TrimRight(s) != "" ==> !IsBlank(TrimRight(s)[j - 1])
    decreases |s|
  {
    if s != "" && IsBlank(s[|s| - 1]) {
      var n := |s| - 1;
      j := TrimRightPart(s[..n]);
      assert s[..n][..j] == s[..j] && s[j..] == s[..n][j..] + [s[n]];
    } else {
      j := |s|;
    }
  }

  /** Trimming takes blanks off both ends and nothing else, and it takes all of them off. */
  lemma TrimExact(s: string) returns (a: string, b: string)
    ensures Blank(a) && Blank(b) && s == a + Trim(s) + b
    ensures Trim(s) == "" <==> Blank(s)
    ensures Trim(s) != "" ==> Trimmed(Trim(s))
  {
    var i := TrimLeftPart(s);
    var j := TrimRightPart(s[i..]);
    a, b := s[..i], s[i..][j..];
    assert s == a + s[i..] && s[i..] == s[i..][..j] + b;
    TrimBlank(s, a, Trim(s), b);
  }

  lemma TrimBlank(s: string, a: string, t: string, b: string)
    requires s == a + t + b && Blank(a) && Blank(b) && (t != "" ==> Trimmed(t))
    ensures t == "" <==> Blank(s)
  {
    if t != "" {
      assert s[|a|] == t[0];
    }
  }

  /** Blanks around a string that has none at its ends come off again. */
  lemma TrimPadded(a: string, t: string, b: string)
    requires Blank(a) && Blank(b) && Trimmed(t)
    ensures Trim(a + t + b) == t
  {
    var s := a + t + b;
    var c, d := TrimExact(s);
    TrimBlank(s, a, t, b);
    var u := Trim(s);
    assert s[|a|] == t[0] && s[|a| + |t| - 1] == t[|t| - 1];
    assert s[|c|] == u[0] && s[|c| + |u| - 1] == u[|u| - 1];
    SameStart(s, a, c);
    SameEnd(s, b, d);
    assert t == s[|a|..|s| - |b|] && u == s[|c|..|s| - |d|];
  }

  lemma SameStart(s: string, a: string, c: string)
    requires Blank(a) && Blank(c) && |a| < |s| && |c| < |s| && a <= s && c <= s
    requires !IsBlank(s[|a|]) && !IsBlank(s[|c|])
    ensures |a| == |c|
  {
    BehindBlanks(s, a, |c|);
    BehindBlanks(s, c, |a|);
  }

  lemma BehindBlanks(s: string, a: string, i: nat)
    requires Blank(a) && a <= s && i < |s| && !IsBlank(s[i])
    ensures |a| <= i
  {
  }

  lemma SameEnd(s: string, b: string, d: string)
    requires Blank(b) && Blank(d) && |b| < |s| && |d| < |s| && s[|s| - |b|..] == b && s[|s| - |d|..] == d
    requires !IsBlank(s[|s| - |b| - 1]) && !IsBlank(s[|s| - |d| - 1])
    ensures |b| == |d|
  {
    BeforeBlanks(s, b, |s| - |d| - 1);
    BeforeBlanks(s, d, |s| - |b| - 1);
  }

  lemma BeforeBlanks(s: string, b: string, i: nat)
    requires Blank(b) && |b| <= |s| && s[|s| - |b|..] == b && i < |s| && !IsBlank(s[i])
    ensures i < |s| - |b|
  {
    var n := |s| - |b|;
    assert forall j :: n <= j < |s| ==> s[j] == s[n..][j - n];
  }

  lemma TrimEmpty(s: string)
    ensures Trim(s) == "" <==> Blank(s)
  {
    var _, _ := TrimExact(s);
  }

  /** What is trimmed is a part of the string. */
  lemma TrimPart(s: string)
    ensures Trim(s) != "" ==> Trimmed(Trim(s))
    ensures forall c :: c in Trim(s) ==> c in s
    ensures |Trim(s)| <= |s|
  {
    var a, b := TrimExact(s);
    assert forall c :: c in Trim(s) ==> c in a + Trim(s) + b;
  }

  // ---------- What a line says ----------

  /** A line gives no entry exactly if it has no '=' or one of its sides is blank. */
  lemma ParseNone(line: string)
    ensures ParsePair(line).None? <==>
              '=' !in line || Blank(Until(line, '=')) || Blank(line[|Until(line, '=')| + 1..])
  {
    Divided(line, '=');
    if '=' in line {
      OneSideBlank(Until(line, '='), line[|Until(line, '=')| + 1..]);
    }
  }

  lemma Divided(s: string, c: char)
    ensures c in s <==> |Until(s, c)| < |s|
  {
    var t := Until(s, c);
    assert |t| == |s| ==> t == s;
  }

  lemma OneSideBlank(left: string, right: string)
    ensures BothSides(Trim(left), Trim(right)).None? <==> Blank(left) || Blank(right)
  {
    TrimEmpty(left);
    TrimEmpty(right);
  }

  /** A key without '=' and a value, with any blanks around both. */
  lemma ParsePadded(a: string, k: string, b: string, c: string, v: string, d: string)
    requires Blank(a) && Blank(b) && Blank(c) && Blank(d) && Trimmed(k) && Trimmed(v) && '=' !in k
    ensures ParsePair(a + k + b + "=" + (c + v + d)) == Some((k, v))
  {
    var left, right := a + k + b, c + v + d;
    assert forall i :: 0 <= i < |left| && left[i] == '=' ==> i < |a| || i >= |a| + |k| || k[i - |a|] in k;
    UntilStops(left, '=', right);
    assert (left + "=" + right)[|left| + 1..] == right;
    TrimPadded(a, k, b);
    TrimPadded(c, v, d);
  }

  /** And only lines of that form give an entry. */
  lemma ParsedForm(line: string) returns (a: string, b: string, c: string, d: string)
    requires ParsePair(line).Some?
    ensures var (k, v) := ParsePair(line).value;
            && Blank(a) && Blank(b) && Blank(c) && Blank(d) && Trimmed(k) && Trimmed(v) && '=' !in k
            && line == a + k + b + "=" + (c + v + d)
  {
    var left := Until(line, '=');
    var right := line[|left| + 1..];
    a, b := TrimExact(left);
    c, d := TrimExact(right);
    TrimPart(left);
    SplitAround(line, |left|);
  }

  lemma SplitAround(s: string, n: nat)
    requires n < |s|
    ensures s == s[..n] + [s[n]] + s[n + 1..]
  {
  }

  lemma TrimTrimmed(s: string)
    requires Trimmed(s)
    ensures Trim(s) == s
  {
  }

  lemma ParsedIsClean(chunk: string)
    ensures var pair := ParsePair(Payload(chunk));
            pair.Some? ==> CleanKey(pair.value.0) && CleanValue(pair.value.1)
  {
    var line := Payload(chunk);
    var left := Until(line, '=');
    assert forall c :: c in left ==> c in line;
    TrimPart(left);
    if |left| < |line| {
      TrimPart(line[|left| + 1..]);
    }
    assert forall c :: c in line ==> c in Until(chunk, '\n');
  }

  /** Everything loaded is trimmed, not empty, free of '#' and newlines, and no key has a '='. */
  lemma {:induction false} LoadedIsClean(content: string, m: map<string, string>)
    requires Clean(m)
    ensures Clean(Load(content, m))
    decreases |content|
  {
    if content != "" {
      var n := ChunkLength(content);
      ParsedIsClean(content[..n]);
      LoadedIsClean(content[n..], Insert(m, ParsePair(Payload(content[..n]))));
    }
  }

  /** Entries already there are never changed. */
  lemma {:induction false} FirstEntryStays(content: string, m: map<string, string>, k: string)
    requires k in m
    ensures k in Load(content, m) && Load(content, m)[k] == m[k]
    decreases |content|
  {
    if content != "" {
      var n := ChunkLength(content);
      FirstEntryStays(content[n..], Insert(m, ParsePair(Payload(content[..n]))), k);
    }
  }

  // ---------- Reading back what was written ----------

  lemma PairReadsBack(k: string, v: string)
    requires CleanKey(k) && CleanValue(v)
    ensures ParsePair(k + "=" + v) == Some((k, v))
    ensures Payload(k + "=" + v) == k + "=" + v
  {
    UntilStops(k, '=', v);
    assert (k + "=" + v)[|k| + 1..] == v;
    UntilStops(k + "=" + v, '\n', "");
    UntilStops(k + "=" + v, '#', "");
  }

  predicate Short(k: string, v: string, room: nat) {
    |k| + |v| <= room
  }

  /** A line that was not cut off is one chunk and gives its pair back. */
  lemma ShortLine(k: string, v: string, rest: string, m: map<string, string>)
    requires CleanKey(k) && CleanValue(v) && Short(k, v, 125) && k !in m
    ensures Load(Line(k, v) + rest, m) == Load(rest, m[k := v])
  {
    LineInserts(k, v, m);
    FirstChunk(k + "=" + v, rest);
    LoadChunk(Line(k, v), rest, m);
  }

  lemma LineInserts(k: string, v: string, m: map<string, string>)
    requires CleanKey(k) && CleanValue(v) && Short(k, v, 125) && k !in m
    ensures Line(k, v) == k + "=" + v + "\n" && '\n' !in k + "=" + v
    ensures Insert(m, ParsePair(Payload(Line(k, v)))) == m[k := v]
  {
    var pair := k + "=" + v;
    NewlineCut(pair);
    PairReadsBack(k, v);
    assert Line(k, v) == pair + "\n";
  }

  lemma NewlineCut(line: string)
    requires '\n' !in line
    ensures Payload(line + "\n") == Payload(line)
  {
    assert line + "\n" == line + "\n" + "";
    UntilStops(line, '\n', "");
  }

  lemma FirstChunk(line: string, rest: string)
    requires '\n' !in line && |line| + 1 <= CHUNK
    ensures ChunkLength(line + "\n" + rest) == |line| + 1
  {
    UntilStops(line, '\n', rest);
  }

  lemma LoadChunk(chunk: string, rest: string, m: map<string, string>)
    requires chunk != "" && ChunkLength(chunk + rest) == |chunk|
    ensures Load(chunk + rest, m) == Load(rest, Insert(m, ParsePair(Payload(chunk))))
  {
    assert (chunk + rest)[..|chunk|] == chunk && (chunk + rest)[|chunk|..] == rest;
  }

  /**
   * A line with a key and a value, any blanks around both and any comment behind: it is an entry, unless the
   * key has one already.
   */
  lemma PaddedLine(a: string, k: string, b: string, c: string, v: string, d: string, comment: string,
                   rest: string, m: map<string, string>)
    requires Blank(a) && Blank(b) && Blank(c) && Blank(d) && CleanKey(k) && CleanValue(v)
    requires (comment == "" || comment[0] == '#') && '\n' !in comment
    requires |a + k + b + "=" + (c + v + d) + comment| < CHUNK
    ensures Load(a + k + b + "=" + (c + v + d) + comment + "\n" + rest, m)
         == Load(rest, if k in m then m else m[k := v])
  {
    var pair := a + k + b + "=" + (c + v + d);
    var line := pair + comment;
    PlainPair(a, k, b, c, v, d);
    assert '\n' !in line;
    FirstChunk(line, rest);
    NewlineCut(line);
    CommentCut(pair, comment);
    ParsePadded(a, k, b, c, v, d);
    LoadChunk(line + "\n", rest, m);
  }

  /** Tabs and spaces around the '=', and a line that ends in a carriage return as well. */
  lemma TabsAndReturns(k: string, v: string, rest: string, m: map<string, string>)
    requires CleanKey(k) && CleanValue(v) && |k| + |v| + 4 < CHUNK
    ensures Load(k + "\t" + "=" + (" " + v + "\r") + "\n" + rest, m) == Load(rest, if k in m then m else m[k := v])
  {
    PaddedLine("", k, "\t", " ", v, "\r", "", rest, m);
    Unpadded(k, "\t", " " + v + "\r");
  }

  lemma Unpadded(k: string, b: string, right: string)
    ensures "" + k + b + "=" + right + "" == k + b + "=" + right
  {
  }

  lemma PlainPair(a: string, k: string, b: string, c: string, v: string, d: string)
    requires Blank(a) && Blank(b) && Blank(c) && Blank(d) && CleanKey(k) && CleanValue(v)
    ensures var pair := a + k + b + "=" + (c + v + d);
            '\n' !in pair && '#' !in pair
  {
    Plain(a);
    Plain(b);
    Plain(c);
    Plain(d);
  }

  lemma Plain(s: string)
    requires Blank(s)
    ensures '\n' !in s && '#' !in s
  {
  }

  lemma CommentCut(pair: string, comment: string)
    requires '\n' !in pair && '#' !in pair && '\n' !in comment && (comment == "" || comment[0] == '#')
    ensures Payload(pair + comment) == pair
  {
    UntilStops(pair + comment, '\n', "");
    if comment != "" {
      assert pair + comment == pair + "#" + comment[1..];
      UntilStops(pair, '#', comment[1..]);
    } else {
      assert pair + comment == pair;
      UntilStops(pair, '#', "");
    }
  }

  ghost predicate Enumerates(keys: seq<string>, m: map<string, string>) {
    && (forall k :: k in m <==> k in keys)
    && (forall i, j :: 0 <= i < j < |keys| ==> keys[i] != keys[j])
  }

  /** The pairs of `m` whose keys are in `keys`. */
  function Part(m: map<string, string>, keys: seq<string>): map<string, string> {
    map k | k in keys && k in m :: m[k]
  }

  lemma PartStep(m: map<string, string>, keys: seq<string>, done: map<string, string>)
    requires keys != [] && keys[0] in m && keys[0] !in done && keys[0] !in keys[1..]
    ensures done[keys[0] := m[keys[0]]] + Part(m, keys[1..]) == done + Part(m, keys)
  {
    assert keys == [keys[0]] + keys[1..];
  }

  lemma HeadDiffers(keys: seq<string>)
    requires keys != [] && forall i, j :: 0 <= i < j < |keys| ==> keys[i] != keys[j]
    ensures keys[0] !in keys[1..]
    ensures forall i, j :: 0 <= i < j < |keys[1..]| ==> keys[1..][i] != keys[1..][j]
  {
    assert forall i :: 0 <= i < |keys[1..]| ==> keys[1..][i] == keys[i + 1];
  }

  lemma {:induction false} ShortLines(keys: seq<string>, m: map<string, string>, rest: string,
                                      done: map<string, string>)
    requires Clean(m) && forall k :: k in keys ==> k in m && Short(k, m[k], 125) && k !in done
    requires forall i, j :: 0 <= i < j < |keys| ==> keys[i] != keys[j]
    ensures Load(Write(keys, m) + rest, done) == Load(rest, done + Part(m, keys))
    decreases |keys|
  {
    if keys == [] {
      assert "" + rest == rest;
      assert done + Part(m, keys) == done;
    } else {
      var k, later := keys[0], Write(keys[1..], m);
      Associate(Line(k, m[k]), later, rest);
      ShortLine(k, m[k], later + rest, done);
      HeadDiffers(keys);
      PartStep(m, keys, done);
      ShortLines(keys[1..], m, rest, done[k := m[k]]);
    }
  }

  /** The last line may lose its newline and nothing else: at the end of the file that does no harm. */
  lemma LastLine(k: string, v: string, m: map<string, string>)
    requires CleanKey(k) && CleanValue(v) && k !in m
    ensures Load(Line(k, v), m) == m[k := v] <==> Short(k, v, 126)
  {
    if Short(k, v, 125) {
      ShortLine(k, v, "", m);
      assert Line(k, v) + "" == Line(k, v);
    } else {
      CutLine(k, v, m);
      CutPair(k, v);
      InsertedAll(k, v, m, ParsePair((k + "=" + v)[..PAIR_ROOM]));
    }
  }

  lemma InsertedAll(k: string, v: string, m: map<string, string>, pair: Option<(string, string)>)
    requires k !in m && (pair.Some? ==> pair.value.0 == k)
    ensures Insert(m, pair) == m[k := v] <==> pair == Some((k, v))
  {
    assert pair.Some? ==> Insert(m, pair)[k] == pair.value.1;
    assert pair.None? ==> k !in Insert(m, pair);
  }

  /** A line that was cut off, at the end of the file. */
  lemma CutLine(k: string, v: string, m: map<string, string>)
    requires CleanKey(k) && CleanValue(v) && !Short(k, v, 125)
    ensures Line(k, v) == (k + "=" + v)[..PAIR_ROOM]
    ensures Load(Line(k, v), m) == Insert(m, ParsePair((k + "=" + v)[..PAIR_ROOM]))
  {
    var pair, text := k + "=" + v, Line(k, v);
    assert (pair + "\n")[..PAIR_ROOM] == pair[..PAIR_ROOM];
    assert forall c :: c in text ==> c in pair;
    UntilStops(text, '\n', "");
    UntilStops(text, '#', "");
    assert text[..|text|] == text && text[|text|..] == "";
  }

  /** A pair that was cut off parses to no pair, or to one with a shorter value. */
  lemma CutPair(k: string, v: string)
    requires CleanKey(k) && CleanValue(v) && !Short(k, v, 125)
    ensures var pair := ParsePair((k + "=" + v)[..PAIR_ROOM]);
            if Short(k, v, 126) then pair == Some((k, v))
            else pair.Some? ==> pair.value.0 == k && |pair.value.1| < |v|
  {
    var text := (k + "=" + v)[..PAIR_ROOM];
    if Short(k, v, 126) {
      assert text == k + "=" + v;
      PairReadsBack(k, v);
    } else if |k| >= PAIR_ROOM {
      assert text == k[..PAIR_ROOM];
      assert forall c :: c in text ==> c in k;
      UntilStops(text, '=', "");
    } else {
      var w := v[..PAIR_ROOM - 1 - |k|];
      assert text == k + "=" + w;
      UntilStops(k, '=', w);
      assert text[|k| + 1..] == w;
      TrimPart(w);
      TrimTrimmed(k);
    }
  }

  // ---------- Counting chunks ----------

  function Chunks(content: string): nat
    decreases |content|
  {
    if content == "" then 0 else 1 + Chunks(content[ChunkLength(content)..])
  }

  /** A chunk yields one entry at most. */
  lemma {:induction false} EntriesBound(content: string, m: map<string, string>)
    ensures |Load(content, m)| <= |m| + Chunks(content)
    decreases |content|
  {
    if content != "" {
      var n := ChunkLength(content);
      var pair := ParsePair(Payload(content[..n]));
      var next := Insert(m, pair);
      assert |next| <= |m| + 1;
      EntriesBound(content[n..], next);
    }
  }

  predicate NoNewline(s: string) {
    forall i :: 0 <= i < |s| ==> s[i] != '\n'
  }

  /** Lines as writeFile produces them: ended by their only newline, or cut off at 127 chars without any. */
  predicate Shaped(l: string) {
    && 1 <= |l| <= PAIR_ROOM
    && NoNewline(l[..|l| - 1])
    && (l[|l| - 1] != '\n' ==> |l| == PAIR_ROOM)
  }

  /** What `n` lines behind `a` chars of an unfinished one can come to. */
  function Limit(a: nat, n: nat): nat {
    if a == 0 then n else if a <= 128 then (if n == 0 then 1 else n) else n + 1
  }

  /** `head` is what fgets takes. */
  lemma OneChunk(head: string, rest: string)
    requires 1 <= |head| <= CHUNK && NoNewline(head[..|head| - 1])
    requires |head| == CHUNK || head[|head| - 1] == '\n' || rest == ""
    ensures Chunks(head + rest) == 1 + Chunks(rest)
  {
    UntilIsLong(head, rest);
    assert (head + rest)[|head|..] == rest;
  }

  lemma UntilIsLong(head: string, rest: string)
    requires head != "" && NoNewline(head[..|head| - 1])
    ensures var n := |Until(head + rest, '\n')|;
            |head| - 1 <= n && (head[|head| - 1] == '\n' ==> n == |head| - 1) && (rest == "" ==> n <= |head|)
  {
    var content, n := head + rest, |head|;
    var u := Until(content, '\n');
    assert forall i :: 0 <= i < n - 1 ==> content[i] == head[..n - 1][i];
    assert |u| > n - 1 ==> u[n - 1] == content[n - 1] == head[n - 1];
  }

  /** An unfinished line, and a line behind it that ends it. */
  lemma EndedStep(open: string, l: string, later: string, n: nat)
    requires NoNewline(open) && |open| < CHUNK && Shaped(l) && l[|l| - 1] == '\n' && Chunks(later) <= n
    ensures Chunks((open + l) + later) <= Limit(|open|, n + 1)
  {
    LongerLine(open, l);
    assert |open + l| == |open| + |l| < 2 * CHUNK;
    EndedLine(open + l, later);
  }

  lemma {:induction false} ChunkLimit(open: string, lines: seq<string>)
    requires NoNewline(open) && |open| < CHUNK
    requires forall i :: 0 <= i < |lines| ==> Shaped(lines[i])
    ensures Chunks(open + Flatten(lines)) <= Limit(|open|, |lines|)
    decreases |lines|
  {
    if lines == [] {
      assert open + "" == open;
      if open != "" {
        OneChunk(open, "");
      }
    } else {
      var l, later := lines[0], Flatten(lines[1..]);
      Associate(open, l, later);
      if l[|l| - 1] == '\n' {
        ChunkLimit("", lines[1..]);
        assert "" + later == later;
        EndedStep(open, l, later, |lines| - 1);
      } else {
        LongerLine(open, l);
        OpenStep(open + l, lines);
      }
    }
  }

  lemma {:induction false} OpenStep(line: string, lines: seq<string>)
    requires lines != [] && NoNewline(line) && PAIR_ROOM <= |line| < CHUNK + PAIR_ROOM
    requires forall i :: 0 <= i < |lines| ==> Shaped(lines[i])
    ensures Chunks(line + Flatten(lines[1..])) <= Limit(|line| - PAIR_ROOM, |lines|)
    decreases |lines|, 0
  {
    if |line| < CHUNK {
      ChunkLimit(line, lines[1..]);
    } else {
      CutChunk(line, Flatten(lines[1..]));
      ChunkLimit(line[CHUNK..], lines[1..]);
    }
  }

  lemma LongerLine(open: string, l: string)
    requires NoNewline(open) && Shaped(l)
    ensures var line := open + l;
            && line[|line| - 1] == l[|l| - 1] && NoNewline(line[..|line| - 1])
            && (l[|l| - 1] != '\n' ==> NoNewline(line) && |line| == |open| + PAIR_ROOM)
  {
    var line := open + l;
    assert line[..|line| - 1] == open + l[..|l| - 1];
    assert l == l[..|l| - 1] + [l[|l| - 1]];
  }

  lemma EndedLine(line: string, later: string)
    requires 1 <= |line| < 2 * CHUNK && NoNewline(line[..|line| - 1]) && line[|line| - 1] == '\n'
    ensures Chunks(line + later) == Chunks(later) + if |line| <= CHUNK then 1 else 2
  {
    if |line| <= CHUNK {
      OneChunk(line, later);
    } else {
      CutChunk(line, later);
      var tail := line[CHUNK..];
      assert |tail| == |line| - CHUNK && tail[|tail| - 1] == '\n';
      OneChunk(tail, later);
    }
  }

  lemma CutChunk(line: string, later: string)
    requires |line| >= CHUNK && NoNewline(line[..|line| - 1])
    ensures Chunks(line + later) == 1 + Chunks(line[CHUNK..] + later)
    ensures |line| > CHUNK ==> NoNewline(line[CHUNK..][..|line| - CHUNK - 1])
  {
    var head, tail := line[..CHUNK], line[CHUNK..];
    assert line == head + tail;
    Associate(head, tail, later);
    OneChunk(head, tail + later);
  }

  // ---------- The exact condition ----------

  /** The room for key and value of pair `i` of `n`. */
  function Room(i: nat, n: nat): nat {
    if i + 1 == n then 126 else 125
  }

  /** Every pair fits its line, the last one written without its newline if need be. */
  predicate AllFit(keys: seq<string>, m: map<string, string>)
    requires forall k :: k in keys ==> k in m
  {
    forall i :: 0 <= i < |keys| ==> Short(keys[i], m[keys[i]], Room(i, |keys|))
  }

  function Lines(keys: seq<string>, m: map<string, string>): (ls: seq<string>)
    requires forall k :: k in keys ==> k in m
    ensures |ls| == |keys| && forall i :: 0 <= i < |ls| ==> ls[i] == Line(keys[i], m[keys[i]])
  {
    seq(|keys|, i requires 0 <= i < |keys| => Line(keys[i], m[keys[i]]))
  }

  lemma {:induction false} WriteIsFlat(keys: seq<string>, m: map<string, string>)
    requires forall k :: k in keys ==> k in m
    ensures Write(keys, m) == Flatten(Lines(keys, m))
    decreases |keys|
  {
    if keys != [] {
      WriteIsFlat(keys[1..], m);
      assert Lines(keys, m)[1..] == Lines(keys[1..], m);
    }
  }

  lemma LineShaped(k: string, v: string)
    requires CleanKey(k) && CleanValue(v)
    ensures Shaped(Line(k, v))
    ensures Line(k, v)[|Line(k, v)| - 1] == '\n' <==> Short(k, v, 125)
  {
    var pair, l := k + "=" + v, Line(k, v);
    assert forall c :: c in pair ==> c in k || c == '=' || c in v;
    assert forall i :: 0 <= i < |pair| ==> pair[i] in pair;
    assert forall i :: 0 <= i < |l| && i < |pair| ==> l[i] == pair[i];
  }

  /** A line without newline in front of another one makes the two share a chunk. */
  lemma {:induction false} FewerChunks(lines: seq<string>, i: nat)
    requires forall j :: 0 <= j < |lines| ==> Shaped(lines[j])
    requires i < |lines| - 1 && lines[i] != "" && lines[i][|lines[i]| - 1] != '\n'
    ensures Chunks(Flatten(lines)) < |lines|
    decreases i
  {
    var l, later := lines[0], Flatten(lines[1..]);
    if l[|l| - 1] != '\n' {
      assert NoNewline(l);
      ChunkLimit(l, lines[1..]);
    } else {
      FewerChunks(lines[1..], i - 1);
      EndedLine(l, later);
    }
  }

  lemma {:induction false} SizeOfKeys(keys: seq<string>, m: map<string, string>)
    requires Enumerates(keys, m)
    ensures |m| == |keys|
    decreases |keys|
  {
    if keys == [] {
      assert m == map[];
    } else {
      RestEnumerates(keys, m);
      SizeOfKeys(keys[1..], m - {keys[0]});
      OneLess(m, keys[0]);
    }
  }

  lemma RestEnumerates(keys: seq<string>, m: map<string, string>)
    requires Enumerates(keys, m) && keys != []
    ensures Enumerates(keys[1..], m - {keys[0]})
  {
    HeadDiffers(keys);
    assert keys == [keys[0]] + keys[1..];
  }

  lemma OneLess(m: map<string, string>, k: string)
    requires k in m
    ensures |m| == |m - {k}| + 1
  {
    assert m.Keys == (m - {k}).Keys + {k};
  }

  lemma SplitLast(keys: seq<string>, m: map<string, string>)
    requires keys != [] && forall k :: k in keys ==> k in m
    ensures var n := |keys| - 1;
            Write(keys, m) == Write(keys[..n], m) + Line(keys[n], m[keys[n]])
    decreases |keys|
  {
    var n := |keys| - 1;
    var last := Line(keys[n], m[keys[n]]);
    if n == 0 {
      assert Write(keys[1..], m) == "" && last + "" == last && "" + last == last;
    } else {
      assert keys[1..][..n - 1] == keys[..n][1..];
      SplitLast(keys[1..], m);
      Associate(Line(keys[0], m[keys[0]]), Write(keys[1..][..n - 1], m), last);
    }
  }

  /**
   * Printer and parser undo each other exactly when every pair fits its line: in whatever order the pairs are
   * written, loading the file gives the map back if and only if each key and value together have at most
   * 125 chars, or 126 for the pair written last.
   */
  lemma WriteThenLoad(keys: seq<string>, m: map<string, string>)
    requires Clean(m) && Enumerates(keys, m)
    ensures Load(Write(keys, m), map[]) == m <==> AllFit(keys, m)
  {
    if keys == [] {
      assert m == map[];
    } else if i :| 0 <= i < |keys| - 1 && !Short(keys[i], m[keys[i]], 125) {
      TooFewEntries(keys, m, i);
      assert !Short(keys[i], m[keys[i]], Room(i, |keys|));
    } else {
      LastDecides(keys, m);
    }
  }

  lemma TooFewEntries(keys: seq<string>, m: map<string, string>, i: nat)
    requires Clean(m) && Enumerates(keys, m)
    requires i < |keys| - 1 && !Short(keys[i], m[keys[i]], 125)
    ensures |Load(Write(keys, m), map[])| < |m|
  {
    var lines := Lines(keys, m);
    forall j | 0 <= j < |lines|
      ensures Shaped(lines[j])
    {
      LineShaped(keys[j], m[keys[j]]);
    }
    LineShaped(keys[i], m[keys[i]]);
    FewerChunks(lines, i);
    WriteIsFlat(keys, m);
    EntriesBound(Write(keys, m), map[]);
    SizeOfKeys(keys, m);
  }

  lemma FrontLoads(front: seq<string>, k: string, m: map<string, string>)
    requires Clean(m) && k in m && forall x :: x in front ==> x in m && Short(x, m[x], 125)
    requires forall i, j :: 0 <= i < j < |front| ==> front[i] != front[j]
    ensures Load(Write(front + [k], m), map[]) == Load(Line(k, m[k]), Part(m, front))
  {
    var keys := front + [k];
    assert keys[..|front|] == front;
    SplitLast(keys, m);
    ShortLines(front, m, Line(k, m[k]), map[]);
    EmptyPlus(Part(m, front));
  }

  lemma EmptyPlus(m: map<string, string>)
    ensures map[] + m == m
  {
  }

  lemma AllButLast(front: seq<string>, k: string, m: map<string, string>)
    requires Enumerates(front + [k], m)
    ensures k in m && k !in Part(m, front) && Part(m, front)[k := m[k]] == m
    ensures forall x :: x in front ==> x in m
    ensures forall i, j :: 0 <= i < j < |front| ==> front[i] != front[j]
  {
    var keys := front + [k];
    assert forall x :: x in keys <==> x in front || x == k;
    assert forall i :: 0 <= i < |front| ==> keys[i] == front[i] && keys[i] != keys[|front|];
  }

  lemma LastDecides(keys: seq<string>, m: map<string, string>)
    requires Clean(m) && Enumerates(keys, m) && keys != []
    requires forall i :: 0 <= i < |keys| - 1 ==> Short(keys[i], m[keys[i]], 125)
    ensures Load(Write(keys, m), map[]) == m <==> AllFit(keys, m)
  {
    var n := |keys| - 1;
    var front, k := keys[..n], keys[n];
    assert keys == front + [k];
    AllButLast(front, k, m);
    FrontLoads(front, k, m);
    LastLine(k, m[k], Part(m, front));
    FitsByLast(keys, m);
  }

  lemma FitsByLast(keys: seq<string>, m: map<string, string>)
    requires keys != [] && forall k :: k in keys ==> k in m
    requires forall i :: 0 <= i < |keys| - 1 ==> Short(keys[i], m[keys[i]], 125)
    ensures AllFit(keys, m) <==> Short(keys[|keys| - 1], m[keys[|keys| - 1]], 126)
  {
    var n := |keys| - 1;
    assert Room(n, |keys|) == 126;
  }

  /** Loading a file, writing it and loading that again. */
  lemma LoadWriteLoad(content: string, keys: seq<string>)
    requires Enumerates(keys, Load(content, map[]))
    ensures var m := Load(content, map[]);
            Load(Write(keys, m), map[]) == m <==> AllFit(keys, m)
  {
    LoadedIsClean(content, map[]);
    WriteThenLoad(keys, Load(content, map[]));
  }
}
