/** The reader itself, on char arrays as base/ConfigFileReader.cpp has it. */
module ConfigFileReader {
  import opened ConfigText
  import opened CStrings

  method SkipBlanks(buf: array<char>, name: nat) returns (begin: nat)
    requires Terminated(buf[..], name)
    ensures var s := CString(buf[..], name);
            && name <= begin && Terminated(buf[..], begin)
            && CString(buf[..], begin) == TrimLeft(s) && begin + |TrimLeft(s)| == name + |s|
            && !IsBlank(buf[begin])
  {
    ghost var a := buf[..];
    ghost var s := CString(a, name);
    ghost var t := s;
    begin := name;
    FirstChar(a, begin);
    while IsBlank(buf[begin])
      invariant name <= begin < buf.Length && begin + |t| == name + |s|
      invariant Terminated(a, begin) && CString(a, begin) == t
      invariant a[begin] == (if t == "" then NUL else t[0]) && TrimLeft(s) == TrimLeft(t)
      decreases |t|
    {
      RestOfString(a, begin);
      t := t[1..];
      begin := begin + 1;
      FirstChar(a, begin);
    }
  }

  lemma FirstChar(a: seq<char>, p: nat)
    requires Terminated(a, p)
    ensures var s := CString(a, p); a[p] == if s == "" then NUL else s[0]
  {
    CStringChars(a, p);
  }

  lemma RestOfString(a: seq<char>, p: nat)
    requires Terminated(a, p) && CString(a, p) != ""
    ensures Terminated(a, p + 1) && CString(a, p + 1) == CString(a, p)[1..]
  {
    CStringChars(a, p);
    var s := CString(a, p);
    CStringIs(a, p + 1, |s| - 1);
    assert a[p + 1..p + |s|] == s[1..];
  }

  /** The string at `begin` does not start with a blank, so the walk from its end stops inside it. */
  method CutBlanks(buf: array<char>, begin: nat)
    requires Terminated(buf[..], begin) && CString(buf[..], begin) != "" && !IsBlank(buf[begin])
    modifies buf
    ensures var s := old(CString(buf[..], begin));
            && Terminated(buf[..], begin) && CString(buf[..], begin) == TrimRight(s) != ""
            && forall i :: 0 <= i < buf.Length && (i < begin || begin + |s| <= i) ==> buf[i] == old(buf[i])
  {
    CStringChars(buf[..], begin);
    ghost var s := CString(buf[..], begin);
    ghost var t := s;
    var n := StrLen(buf, begin);
    var end := begin + n - 1;
    LastChar(buf[..], begin);
    while IsBlank(buf[end])
      invariant |t| == end + 1 - begin && begin <= end < begin + n <= buf.Length
      invariant Terminated(buf[..], begin) && CString(buf[..], begin) == t
      invariant !IsBlank(t[0]) && buf[end] == t[|t| - 1]
      invariant forall i :: 0 <= i < buf.Length && (i < begin || begin + n <= i) ==> buf[i] == old(buf[i])
      invariant TrimRight(s) == TrimRight(t)
      decreases end
    {
      CutAt(buf, begin, end - begin);
      t := t[..end - begin];
      end := end - 1;
      LastChar(buf[..], begin);
    }
  }

  lemma LastChar(a: seq<char>, p: nat)
    requires Terminated(a, p) && CString(a, p) != ""
    ensures var s := CString(a, p); a[p + |s| - 1] == s[|s| - 1]
  {
    CStringChars(a, p);
  }

  /** What trimSpace promises: `start` is the index of the trimmed string `t`, or -1 when nothing is left. */
  predicate HasTrimmed(a: seq<char>, start: int, t: string) {
    if t == "" then start == -1 else start >= 0 && Terminated(a, start) && CString(a, start) == t
  }

  /** trimSpace: moves the start over blanks and overwrites blanks at the end with zeros. */
  method TrimSpace(buf: array<char>, name: nat) returns (start: int)
    requires Terminated(buf[..], name)
    modifies buf
    ensures HasTrimmed(buf[..], start, Trim(old(CString(buf[..], name))))
    ensures start != -1 ==> start >= name && start + |CString(buf[..], start)| <= name + |old(CString(buf[..], name))|
    ensures var n := |old(CString(buf[..], name))|;
            forall i :: 0 <= i < buf.Length && (i < name || name + n <= i) ==> buf[i] == old(buf[i])
  {
    start := SkipBlanks(buf, name);
    ghost var left := CString(buf[..], start);
    var rest := StrLen(buf, start);
    if rest == 0 {
      return -1;
    }
    var j := TrimRightPart(left);
    CutBlanks(buf, start);
  }

  /** A zero in place of a char of the string at 0 leaves two strings. */
  lemma TwoStrings(a: seq<char>, p: nat)
    requires Terminated(a, 0) && p < |CString(a, 0)|
    ensures var b, s := a[p := NUL], CString(a, 0);
            && Terminated(b, 0) && CString(b, 0) == s[..p]
            && Terminated(b, p + 1) && CString(b, p + 1) == s[p + 1..]
  {
    CStringChars(a, 0);
    var b, s := a[p := NUL], CString(a, 0);
    CStringIs(b, 0, p);
    assert b[0..p] == s[..p];
    CStringIs(b, p + 1, |s| - p - 1);
    assert b[p + 1..|s|] == s[p + 1..];
  }

  /** What one fgets delivers, and what stays in the file. */
  lemma OneLine(rest: string)
    requires rest != "" && NUL !in rest
    ensures var chunk := rest[..ChunkLength(rest)];
            && |chunk| <= CHUNK && NUL !in chunk && '\n' !in chunk[..|chunk| - 1]
            && NUL !in rest[ChunkLength(rest)..]
  {
    var n := ChunkLength(rest);
    assert rest[..n][..n - 1] == Until(rest, '\n')[..n - 1];
  }

  // ---------- The order of the map ----------

  /** The order of std::string: char by char, and a proper prefix comes first. */
  predicate Less(a: string, b: string) {
    b != [] && (a == [] || a[0] < b[0] || (a[0] == b[0] && Less(a[1..], b[1..])))
  }

  lemma {:induction false} LessTotal(a: string, b: string)
    requires a != b
    ensures Less(a, b) || Less(b, a)
    decreases |a|
  {
    if a != [] && b != [] && a[0] == b[0] {
      assert a == [a[0]] + a[1..] && b == [b[0]] + b[1..];
      LessTotal(a[1..], b[1..]);
    }
  }

  lemma {:induction false} LessTransitive(a: string, b: string, c: string)
    requires Less(a, b) && Less(b, c)
    ensures Less(a, c)
    decreases |a|
  {
    if a != [] && a[0] == b[0] == c[0] {
      LessTransitive(a[1..], b[1..], c[1..]);
    }
  }

  predicate IsLeast(k: string, keys: set<string>) {
    k in keys && forall j :: j in keys && j != k ==> Less(k, j)
  }

  lemma {:induction false} LeastExists(keys: set<string>)
    requires keys != {}
    ensures exists k :: IsLeast(k, keys)
    decreases |keys|
  {
    var x :| x in keys;
    var others := keys - {x};
    assert forall j :: j in keys && j != x ==> j in others;
    if others == {} {
      assert IsLeast(x, keys);
    } else {
      LeastExists(others);
      var k :| IsLeast(k, others);
      LessTotal(k, x);
      if Less(k, x) {
        assert IsLeast(k, keys);
      } else {
        AllBehind(x, k, others);
        assert IsLeast(x, keys);
      }
    }
  }

  lemma AllBehind(x: string, k: string, keys: set<string>)
    requires Less(x, k) && IsLeast(k, keys)
    ensures forall j :: j in keys ==> Less(x, j)
  {
    forall j | j in keys && j != k
      ensures Less(x, j)
    {
      LessTransitive(x, k, j);
    }
  }

  /** Ascending, and in front of all of `left`. */
  predicate InOrder(keys: seq<string>, left: set<string>) {
    && (forall i, j :: 0 <= i < j < |keys| ==> Less(keys[i], keys[j]))
    && (forall i, k :: 0 <= i < |keys| && k in left ==> Less(keys[i], k))
  }

  lemma NextInOrder(keys: seq<string>, left: set<string>, k: string)
    requires InOrder(keys, left) && IsLeast(k, left)
    ensures InOrder(keys + [k], left - {k})
  {
  }

  /** The keys written are those not left, each once and in order. */
  ghost predicate Progress(keys: seq<string>, left: set<string>, m: map<string, string>) {
    && left <= m.Keys && |left| + |keys| == |m| && InOrder(keys, left)
    && (forall k :: k in keys <==> k in m && k !in left)
    && (forall i, j :: 0 <= i < j < |keys| ==> keys[i] != keys[j])
  }

  lemma ProgressStep(keys: seq<string>, left: set<string>, m: map<string, string>, k: string)
    requires Progress(keys, left, m) && IsLeast(k, left)
    ensures Progress(keys + [k], left - {k}, m)
  {
    NextInOrder(keys, left, k);
  }

  class CConfigFileReader {
    var configMap: map<string, string>
    var loadOk: bool

    /** Loading happens in the constructor; here of a file that can be opened. */
    constructor (content: string)
      requires NUL !in content
      ensures loadOk && configMap == Load(content, map[])
    {
      configMap, loadOk := map[], false;
      new;
      LoadFile(content);
    }

    method GetConfigName(name: string) returns (value: Option<string>)
      ensures value == if loadOk && name in configMap then Some(configMap[name]) else None
    {
      if !loadOk {
        return None;
      }
      value := if name in configMap then Some(configMap[name]) else None;
    }

    /** Puts a zero in place of the '='. */
    method SplitAtEquals(line: array<char>) returns (p: int)
      requires Terminated(line[..], 0)
      modifies line
      ensures var s := old(CString(line[..], 0));
              && (p == -1 <==> |Until(s, '=')| == |s|)
              && (p != -1 ==> 0 <= p < line.Length && |Until(s, '=')| == p
                              && Terminated(line[..], 0) && CString(line[..], 0) == Until(s, '=')
                              && Terminated(line[..], p + 1) && CString(line[..], p + 1) == s[p + 1..])
    {
      ghost var a := line[..];
      ghost var s := CString(a, 0);
      p := StrChr(line, 0, '=');
      if p == -1 {
        UntilStops(s, '=', "");
      } else {
        CStringChars(a, 0);
        line[p] := NUL;
        TwoStrings(a, p);
        assert line[..] == a[p := NUL];
      }
    }

    /** The two strings do not overlap, so trimming the one leaves the other alone. */
    method TrimBoth(line: array<char>, p: nat, ghost left: string, ghost right: string) returns (key: int, value: int)
      requires Terminated(line[..], 0) && CString(line[..], 0) == left && |left| <= p
      requires Terminated(line[..], p + 1) && CString(line[..], p + 1) == right
      modifies line
      ensures HasTrimmed(line[..], key, Trim(left)) && HasTrimmed(line[..], value, Trim(right))
    {
      ghost var a := line[..];
      key := TrimSpace(line, 0);
      ghost var b := line[..];
      CStringFrame(a, b, p + 1);
      value := TrimSpace(line, p + 1);
      if key != -1 {
        CStringFrame(b, line[..], key);
      }
    }

    /** Splits at the '=' and trims both sides in place. */
    method SplitLine(line: array<char>) returns (key: int, value: int)
      requires Terminated(line[..], 0)
      modifies line
      ensures var pair := ParsePair(old(CString(line[..], 0)));
              && (pair.Some? <==> key >= 0 && value >= 0)
              && (pair.Some? ==> Terminated(line[..], key) && Terminated(line[..], value)
                                 && pair.value == (CString(line[..], key), CString(line[..], value)))
    {
      ghost var s := CString(line[..], 0);
      var p := SplitAtEquals(line);
      if p == -1 {
        return -1, -1;
      }
      ghost var left, right := CString(line[..], 0), CString(line[..], p + 1);
      assert ParsePair(s) == BothSides(Trim(left), Trim(right));
      key, value := TrimBoth(line, p, left, right);
    }

    method ParseLine(line: array<char>)
      requires Terminated(line[..], 0)
      modifies line, `configMap
      ensures configMap == Insert(old(configMap), ParsePair(old(CString(line[..], 0))))
    {
      var key, value := SplitLine(line);
      if key >= 0 && value >= 0 {
        var k := ToString(line, key);
        var v := ToString(line, value);
        if k !in configMap {
          configMap := configMap[k := v];
        }
      }
    }

    /** What fgets leaves in the buffer. */
    method Fill(chunk: string, buf: array<char>)
      requires NUL !in chunk && |chunk| < buf.Length
      modifies buf
      ensures Terminated(buf[..], 0) && CString(buf[..], 0) == chunk
    {
      for i := 0 to |chunk|
        invariant buf[..i] == chunk[..i]
      {
        buf[i] := chunk[i];
      }
      buf[|chunk|] := NUL;
      assert forall i :: 0 <= i < |chunk| ==> buf[i] == chunk[i];
      CStringIs(buf[..], 0, |chunk|);
      assert buf[..][0..|chunk|] == chunk;
    }

    method CutNewline(buf: array<char>)
      requires Terminated(buf[..], 0) && CString(buf[..], 0) != ""
      requires var s := CString(buf[..], 0); '\n' !in s[..|s| - 1]
      modifies buf
      ensures Terminated(buf[..], 0) && CString(buf[..], 0) == Until(old(CString(buf[..], 0)), '\n')
    {
      ghost var s := CString(buf[..], 0);
      CStringChars(buf[..], 0);
      var len := StrLen(buf, 0);
      assert s == s[..len - 1] + [s[len - 1]] && s[len - 1] == buf[len - 1];
      if buf[len - 1] == '\n' {
        assert s == s[..len - 1] + ['\n'] + "";
        UntilStops(s[..len - 1], '\n', "");
        CutAt(buf, 0, len - 1);
      } else {
        UntilStops(s, '\n', "");
      }
    }

    method CutComment(buf: array<char>)
      requires Terminated(buf[..], 0)
      modifies buf
      ensures Terminated(buf[..], 0) && CString(buf[..], 0) == Until(old(CString(buf[..], 0)), '#')
    {
      ghost var s := CString(buf[..], 0);
      var ch := StrChr(buf, 0, '#');
      if ch != -1 {
        CutAt(buf, 0, ch);
      } else {
        UntilStops(s, '#', "");
      }
    }

    /** One turn of the loading loop. */
    method LoadChunk(chunk: string, buf: array<char>)
      requires chunk != "" && NUL !in chunk && |chunk| < buf.Length && '\n' !in chunk[..|chunk| - 1]
      modifies buf, `configMap
      ensures configMap == Insert(old(configMap), ParsePair(Payload(chunk)))
    {
      Fill(chunk, buf);
      CutNewline(buf);
      CutComment(buf);
      var len := StrLen(buf, 0);
      if len == 0 {
        return;
      }
      ParseLine(buf);
    }

    method LoadFile(content: string)
      requires NUL !in content
      modifies this
      ensures loadOk && configMap == Load(content, old(configMap))
    {
      var buf := new char[256];
      var rest := content;
      while rest != ""
        invariant NUL !in rest
        invariant Load(rest, configMap) == Load(content, old(configMap))
        decreases |rest|
      {
        var n := ChunkLength(rest); // fgets
        OneLine(rest);
        LoadChunk(rest[..n], buf);
        rest := rest[n..];
      }
      loadOk := true;
    }

    /**
     * The map in the order of its keys; `keys` is what has been written, in that order. `opens`: the file
     * can be opened for writing; `room`: how many lines fwrite accepts.
     */
    method WriteFile(opens: bool, room: nat) returns (status: int, text: string, ghost keys: seq<string>)
      ensures status == if opens && |configMap| <= room then 0 else -1
      ensures (forall k :: k in keys ==> k in configMap) && text == Write(keys, configMap)
      ensures status == 0 ==> Enumerates(keys, configMap)
      ensures InOrder(keys, configMap.Keys - set k | k in keys)
      ensures status != 0 ==> |keys| == (if opens then room else 0)
    {
      text, keys := "", [];
      if !opens {
        return -1, text, keys;
      }
      var left, written := configMap.Keys, 0;
      while left != {}
        invariant Progress(keys, left, configMap) && written == |keys| <= room
        invariant text == Write(keys, configMap)
        decreases left
      {
        if written == room {
          assert left == configMap.Keys - set k | k in keys;
          return -1, text, keys;
        }
        LeastExists(left);
        var k :| IsLeast(k, left);
        ProgressStep(keys, left, configMap, k);
        SplitLast(keys + [k], configMap);
        assert (keys + [k])[..|keys|] == keys;
        text := text + Line(k, configMap[k]);
        keys, written := keys + [k], written + 1;
        left := left - {k};
      }
      status := 0;
    }

    /** The value is set even if the file cannot be rewritten; before a load nothing happens. */
    method SetConfigValue(name: string, value: string, opens: bool, room: nat)
      returns (status: int, text: string, ghost keys: seq<string>)
      modifies this
      ensures loadOk == old(loadOk)
      ensures configMap == if loadOk then old(configMap)[name := value] else old(configMap)
      ensures status == if loadOk && opens && |configMap| <= room then 0 else -1
      ensures status == 0 ==> Enumerates(keys, configMap) && InOrder(keys, {}) && text == Write(keys, configMap)
    {
      if !loadOk {
        return -1, "", [];
      }
      configMap := configMap[name := value];
      status, text, keys := WriteFile(opens, room);
    }
  }

  /**
   * A value set, and the file rewritten and read again: the new reader has the same entries, the new value
   * among them, if and only if every pair fits its line.
   */
  method SetAndReload(reader: CConfigFileReader, name: string, value: string)
    returns (again: CConfigFileReader, ghost keys: seq<string>)
    requires reader.loadOk && Clean(reader.configMap) && CleanKey(name) && CleanValue(value)
    requires NUL !in name && NUL !in value
    requires forall k :: k in reader.configMap ==> NUL !in k && NUL !in reader.configMap[k]
    modifies reader
    ensures reader.configMap == old(reader.configMap)[name := value] && Enumerates(keys, reader.configMap)
    ensures fresh(again) && (again.configMap == reader.configMap <==> AllFit(keys, reader.configMap))
  {
    var room := |reader.configMap[name := value]|;
    var status, text;
    status, text, keys := reader.SetConfigValue(name, value, true, room);
    WriteThenLoad(keys, reader.configMap);
    NoZeros(keys, reader.configMap);
    again := new CConfigFileReader(text);
  }

  lemma {:induction false} NoZeros(keys: seq<string>, m: map<string, string>)
    requires forall k :: k in keys ==> k in m && NUL !in k && NUL !in m[k]
    ensures NUL !in Write(keys, m)
  {
    if keys != [] {
      NoZeros(keys[1..], m);
      var full := keys[0] + "=" + m[keys[0]] + "\n";
      assert NUL !in full;
      assert forall c :: c in Line(keys[0], m[keys[0]]) ==> c in full;
    }
  }
}
