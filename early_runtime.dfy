/** The early C runtime of lib/natalie/main.c: lexical environment frames
    chained by `outer`, heap objects with a growable NUL-terminated string
    buffer, the bootstrap class graph and the receiver-class-only method
    lookup of `nat_send`. */
module EarlyRuntime {
  import opened Wrappers
  import opened Text

  const NUL: char := '\0'

  /** A C string holds no NUL before its terminator. */
  predicate CString(s: string)
  {
    forall i :: 0 <= i < |s| ==> s[i] != NUL
  }

  // ---------------------------------------------------------------------
  // num_char_len: a buffer size for the decimal text of a long long.
  // ---------------------------------------------------------------------

  const LONG_LONG_MIN: int := -0x8000_0000_0000_0000
  const LONG_LONG_MAX: int := 0x7fff_ffff_ffff_ffff

  /** num_char_len. The most negative long long is excluded: `llabs` of it
      overflows. */
  function NumCharLen(n: int): (r: nat)
    requires LONG_LONG_MIN < n <= LONG_LONG_MAX
    ensures r >= 1
    ensures n >= 0 ==> r <= 40
    ensures n < 0 ==> 2 <= r <= 41
    decreases if n < 0 then 1 else 0
  {
    if n < 0 then 1 + NumCharLen(-n)
    else if n < 10 then 1
    else if n < 100 then 2
    else if n < 1000 then 3
    else if n < 10000 then 4
    else if n < 100000 then 5
    else if n < 1000000 then 6
    else if n < 1000000000 then 9
    else if n < 1000000000000 then 12
    else if n < 1000000000000000 then 15
    else if n < 1000000000000000000 then 18
    else 40
  }

  /** A number below 10^k has at most k digits. */
  lemma {:induction false} DecimalLengthAtMost(n: nat, k: nat)
    requires 1 <= k && n < Pow10(k)
    ensures |DecimalString(n)| <= k
  {
    if n >= 10 {
      assert k > 1;
      assert n / 10 < Pow10(k - 1);
      DecimalLengthAtMost(n / 10, k - 1);
    }
  }

  /** Below a million the length is the exact digit count; above it the
      length is enough room for every digit; a negative number takes one
      character more for the sign. */
  lemma NumCharLenCoversDecimal(n: int)
    requires LONG_LONG_MIN < n <= LONG_LONG_MAX
    ensures 0 <= n < 1000000 ==> NumCharLen(n) == |DecimalString(n)|
    ensures n >= 0 ==> NumCharLen(n) >= |DecimalString(n)|
    ensures n < 0 ==> NumCharLen(n) == 1 + NumCharLen(-n) && NumCharLen(n) >= |DecimalString(n)|
  {
    var m := if n < 0 then -n else n;
    assert Pow10(1) == 10 && Pow10(2) == 100 && Pow10(3) == 1000 && Pow10(4) == 10000;
    assert Pow10(5) == 100000 && Pow10(6) == 1000000 && Pow10(9) == 1000000000;
    assert Pow10(12) == 1000000000000 && Pow10(15) == 1000000000000000;
    assert Pow10(18) == 1000000000000000000 && Pow10(19) == 10000000000000000000;
    if m < 10 { DecimalLength(m, 1); }
    else if m < 100 { DecimalLength(m, 2); }
    else if m < 1000 { DecimalLength(m, 3); }
    else if m < 10000 { DecimalLength(m, 4); }
    else if m < 100000 { DecimalLength(m, 5); }
    else if m < 1000000 { DecimalLength(m, 6); }
    else if m < 1000000000 { DecimalLengthAtMost(m, 9); }
    else if m < 1000000000000 { DecimalLengthAtMost(m, 12); }
    else if m < 1000000000000000 { DecimalLengthAtMost(m, 15); }
    else if m < 1000000000000000000 { DecimalLengthAtMost(m, 18); }
    else { DecimalLengthAtMost(m, 19); }
  }

  // ---------------------------------------------------------------------
  // Objects.
  // ---------------------------------------------------------------------

  datatype NatValueType = ClassType | ArrayType | StringType | NumberType | NilType | OtherType

  /** The native functions the bootstrap installs in method tables. */
  datatype NativeMethod =
    | ObjectPuts | NilClassToS | NilClassInspect | NumericToS
    | StringToS | StringInspectMethod | StringLtlt

  /** The fields of an object other than its string buffer. */
  datatype Header = Header(kind: NatValueType, klass: NatObject?, number: int, name: string,
                           superclass: NatObject?, methods: map<string, NativeMethod>)

  /** The new capacity nat_grow_string_at_least picks: the old one when it
      suffices, double it when that suffices, otherwise exactly the minimum. */
  function GrownCapacity(cap: nat, minCapacity: nat): (c: nat)
    ensures c >= minCapacity && c >= cap
    ensures cap >= minCapacity ==> c == cap
    ensures cap < minCapacity ==> c == minCapacity || (0 < cap && c == 2 * cap)
    ensures 0 < cap < minCapacity <= 2 * cap ==> c == 2 * cap
    ensures cap < minCapacity && (cap == 0 || 2 * cap < minCapacity) ==> c == minCapacity
  {
    if cap >= minCapacity then cap
    else if cap > 0 && minCapacity <= cap * 2 then cap * 2
    else minCapacity
  }

  /** A heap object. The C union is modelled as separate fields; the string
      buffer `str` holds `strCap + 1` chars. */
  class NatObject {
    var kind: NatValueType
    var klass: NatObject?
    var number: int
    var name: string
    var superclass: NatObject?
    var methods: map<string, NativeMethod>
    var strLen: nat
    var strCap: nat
    var str: array<char>

    function Head(): Header
      reads this
    {
      Header(kind, klass, number, name, superclass, methods)
    }

    /** The buffer holds the contents, a terminator at `strLen`, and no NUL before it. */
    ghost predicate StringValid()
      reads this, str
    {
      str.Length == strCap + 1 && strLen <= strCap && str[strLen] == NUL
      && forall i :: 0 <= i < strLen ==> str[i] != NUL
    }

    ghost function Contents(): (s: string)
      reads this, str
      requires StringValid()
      ensures |s| == strLen && CString(s)
    {
      str[..strLen]
    }

    /** nat_alloc: a fresh object of type OTHER. C leaves the other fields
        uninitialised; here they are empty, with no class. */
    constructor Alloc()
      ensures kind == OtherType && klass == null && superclass == null && methods == map[]
      ensures name == "" && number == 0
      ensures StringValid() && Contents() == [] && strCap == 0 && fresh(str)
    {
      kind := OtherType;
      klass := null;
      number := 0;
      name := "";
      superclass := null;
      methods := map[];
      strLen := 0;
      strCap := 0;
      str := new char[1](_ => NUL);
    }

    /** nat_grow_string: reallocates the buffer for `capacity` chars; the
        contents move unchanged. */
    method GrowString(capacity: nat)
      requires StringValid() && capacity >= strLen
      modifies this
      ensures StringValid() && fresh(str)
      ensures strCap == capacity && strLen == old(strLen) && Contents() == old(Contents())
      ensures Head() == old(Head())
    {
      var prev := str[..];
      var len := strLen;
      str := new char[capacity + 1](i requires 0 <= i < capacity + 1 => if i <= len && i < |prev| then prev[i] else NUL);
      strCap := capacity;
      assert str[..strLen] == prev[..len];
    }

    /** nat_grow_string_at_least: afterwards the capacity is GrownCapacity
        of the old one. */
    method GrowStringAtLeast(minCapacity: nat)
      requires StringValid()
      modifies this
      ensures StringValid() && (str == old(str) || fresh(str))
      ensures strCap == GrownCapacity(old(strCap), minCapacity)
      ensures strLen == old(strLen) && Contents() == old(Contents())
      ensures Head() == old(Head())
    {
      var capacity := strCap;
      if capacity >= minCapacity {
        return;
      }
      if capacity > 0 && minCapacity <= capacity * 2 {
        GrowString(capacity * 2);
      } else {
        GrowString(minCapacity);
      }
    }

    /** nat_string_append: the contents become the old contents followed by
        `s`; appending the empty string changes nothing. */
    method StringAppend(s: string)
      requires StringValid() && CString(s)
      modifies this, str
      ensures StringValid() && (str == old(str) || fresh(str))
      ensures Contents() == old(Contents()) + s && strLen == old(strLen) + |s|
      ensures s == [] ==> strCap == old(strCap) && str == old(str)
      ensures s != [] ==> strCap == GrownCapacity(old(strCap), old(strLen) + |s|)
      ensures Head() == old(Head())
    {
      var newLen := |s|;
      if newLen == 0 {
        return;
      }
      ghost var before := Contents();
      var totalLen := strLen + newLen;
      GrowStringAtLeast(totalLen);
      ghost var buf := str;
      // strcat: the chars of s from the terminator on, then a new terminator
      var j := 0;
      while j < newLen
        invariant 0 <= j <= newLen && str == buf
        invariant str[..strLen] == before
        invariant str[strLen..strLen + j] == s[..j]
        modifies str
      {
        str[strLen + j] := s[j];
        j := j + 1;
      }
      assert str[..totalLen] == before + s by {
        assert str[..totalLen] == str[..strLen] + str[strLen..totalLen];
      }
      str[totalLen] := NUL;
      assert str[..totalLen] == before + s;
      forall i | 0 <= i < totalLen
        ensures str[i] != NUL
      {
        assert str[i] == (before + s)[i];
      }
      strLen := totalLen;
    }

    /** nat_string_append_char: the contents gain `c` at the end. A NUL
        would end the C string early, and no caller appends one. */
    method StringAppendChar(c: char)
      requires StringValid() && c != NUL
      modifies this, str
      ensures StringValid() && (str == old(str) || fresh(str))
      ensures Contents() == old(Contents()) + [c] && strLen == old(strLen) + 1
      ensures strCap == GrownCapacity(old(strCap), old(strLen) + 1)
      ensures Head() == old(Head())
    {
      ghost var before := Contents();
      var totalLen := strLen + 1;
      GrowStringAtLeast(totalLen);
      str[totalLen - 1] := c;
      str[totalLen] := NUL;
      strLen := totalLen;
      assert str[..strLen] == before + [c];
    }
  }

  /** nat_subclass: a fresh class object with an empty method table. */
  method NatSubclass(superclass: NatObject?, name: string) returns (val: NatObject)
    ensures fresh(val) && val.kind == ClassType && val.name == name
    ensures val.superclass == superclass && val.methods == map[] && val.klass == null
  {
    val := new NatObject.Alloc();
    val.kind := ClassType;
    val.name := name;
    val.superclass := superclass;
    val.methods := map[];
  }

  /** nat_new: a fresh object of the given class. */
  method NatNew(klass: NatObject?) returns (val: NatObject)
    ensures fresh(val) && val.kind == OtherType && val.klass == klass
    ensures val.StringValid() && fresh(val.str)
  {
    val := new NatObject.Alloc();
    val.klass := klass;
  }

  // ---------------------------------------------------------------------
  // Environments.
  // ---------------------------------------------------------------------

  /** One frame: its bindings and the frame it is nested in. Frames live in
      an arena and are named by index; an outer frame always comes first. */
  datatype Frame = Frame(data: map<string, NatObject>, outer: Option<nat>)

  ghost predicate FramesValid(frames: seq<Frame>)
  {
    forall i :: 0 <= i < |frames| && frames[i].outer.Some? ==> frames[i].outer.value < i
  }

  /** The frames visited from `e` outwards. */
  function Chain(frames: seq<Frame>, e: nat): (c: seq<nat>)
    requires FramesValid(frames) && e < |frames|
    ensures |c| >= 1 && c[0] == e
    ensures forall i :: 0 <= i < |c| ==> c[i] <= e
    decreases e
  {
    match frames[e].outer
    case None => [e]
    case Some(o) => [e] + Chain(frames, o)
  }

  /** env_find: the nearest frame from `e` outwards that binds `key`. */
  function EnvFind(frames: seq<Frame>, e: nat, key: string): (r: Option<nat>)
    requires FramesValid(frames) && e < |frames|
    ensures r.Some? ==> r.value <= e && key in frames[r.value].data
    decreases e
  {
    if key in frames[e].data then Some(e)
    else match frames[e].outer
      case None => None
      case Some(o) => EnvFind(frames, o, key)
  }

  /** env_get: the value bound in that frame. Where no frame binds the key
      the model answers None. */
  function EnvGet(frames: seq<Frame>, e: nat, key: string): (r: Option<NatObject>)
    requires FramesValid(frames) && e < |frames|
    ensures r.Some? <==> EnvFind(frames, e, key).Some?
    ensures r.Some? ==> r.value == frames[EnvFind(frames, e, key).value].data[key]
  {
    match EnvFind(frames, e, key)
    case None => None
    case Some(f) => Some(frames[f].data[key])
  }

  /** The frame env_find picks is the first frame of the chain binding the
      key, and it picks none exactly when no frame of the chain binds it. */
  lemma {:induction false} EnvFindNearest(frames: seq<Frame>, e: nat, key: string)
    requires FramesValid(frames) && e < |frames|
    ensures var c := Chain(frames, e);
            EnvFind(frames, e, key).None? <==> forall i :: 0 <= i < |c| ==> key !in frames[c[i]].data
    ensures var c := Chain(frames, e);
            EnvFind(frames, e, key).Some? ==>
              exists i :: 0 <= i < |c| && c[i] == EnvFind(frames, e, key).value &&
                          forall j :: 0 <= j < i ==> key !in frames[c[j]].data
    decreases e
  {
    var c := Chain(frames, e);
    if key !in frames[e].data {
      match frames[e].outer {
        case None =>
        case Some(o) =>
          EnvFindNearest(frames, o, key);
          var t := Chain(frames, o);
          assert c == [e] + t;
          if EnvFind(frames, o, key).Some? {
            var i :| 0 <= i < |t| && t[i] == EnvFind(frames, o, key).value &&
                     forall j :: 0 <= j < i ==> key !in frames[t[j]].data;
            assert c[i + 1] == t[i];
            assert forall j :: 0 <= j < i + 1 ==> key !in frames[c[j]].data by {
              forall j | 0 <= j < i + 1 ensures key !in frames[c[j]].data {
                if j > 0 { assert c[j] == t[j - 1]; }
              }
            }
          } else {
            forall i | 0 <= i < |c| ensures key !in frames[c[i]].data {
              if i > 0 { assert c[i] == t[i - 1]; }
            }
          }
      }
    } else {
      assert c[0] == e;
    }
  }

  /** Frames no newer than `e` are all a lookup from `e` looks at. */
  lemma {:induction false} EnvFindLooksOnlyOutward(frames: seq<Frame>, frames': seq<Frame>, e: nat, key: string)
    requires FramesValid(frames) && FramesValid(frames') && e < |frames| && e < |frames'|
    requires forall f :: 0 <= f <= e ==> frames[f] == frames'[f]
    ensures EnvFind(frames, e, key) == EnvFind(frames', e, key)
    ensures EnvGet(frames, e, key) == EnvGet(frames', e, key)
    decreases e
  {
    if frames[e].outer.Some? {
      EnvFindLooksOnlyOutward(frames, frames', frames[e].outer.value, key);
    }
  }

  /** The arena of frames, updated in place by env_set and env_delete. */
  class Envs {
    var frames: seq<Frame>

    ghost predicate Valid()
      reads this
    {
      FramesValid(frames)
    }

    constructor ()
      ensures Valid() && frames == []
    {
      frames := [];
    }

    /** build_env: a new empty frame nested in `outer`. */
    method BuildEnv(outer: Option<nat>) returns (e: nat)
      requires Valid() && (outer.Some? ==> outer.value < |frames|)
      modifies this
      ensures Valid() && e == |old(frames)| && frames == old(frames) + [Frame(map[], outer)]
    {
      e := |frames|;
      frames := frames + [Frame(map[], outer)];
    }

    /** env_set: binds `key` in frame `e` itself, and no other frame. */
    method EnvSet(e: nat, key: string, val: NatObject) returns (r: NatObject)
      requires Valid() && e < |frames|
      modifies this
      ensures Valid() && r == val
      ensures frames == old(frames)[e := Frame(old(frames[e].data)[key := val], old(frames[e].outer))]
    {
      frames := frames[e := frames[e].(data := frames[e].data - {key})];
      frames := frames[e := frames[e].(data := frames[e].data[key := val])];
      assert frames[e].data == old(frames[e].data)[key := val];
      return val;
    }

    /** env_delete: unbinds `key` in frame `e` only. */
    method EnvDelete(e: nat, key: string)
      requires Valid() && e < |frames|
      modifies this
      ensures Valid()
      ensures frames == old(frames)[e := Frame(old(frames[e].data) - {key}, old(frames[e].outer))]
    {
      frames := frames[e := frames[e].(data := frames[e].data - {key})];
    }
  }

  /** After env_set the frame answers the new value; every other name and
      every older frame reads as before. */
  lemma EnvGetAfterSet(frames: seq<Frame>, e: nat, key: string, val: NatObject, x: nat, other: string)
    requires FramesValid(frames) && e < |frames| && x < |frames|
    ensures var frames' := frames[e := Frame(frames[e].data[key := val], frames[e].outer)];
            && FramesValid(frames')
            && EnvGet(frames', e, key) == Some(val)
            && (other != key ==> EnvGet(frames', x, other) == EnvGet(frames, x, other))
            && (x < e ==> EnvGet(frames', x, key) == EnvGet(frames, x, key))
  {
    var frames' := frames[e := Frame(frames[e].data[key := val], frames[e].outer)];
    if other != key {
      SetOtherKey(frames, frames', e, key, val, x, other);
    }
    if x < e {
      EnvFindLooksOnlyOutward(frames, frames', x, key);
    }
  }

  lemma {:induction false} SetOtherKey(frames: seq<Frame>, frames': seq<Frame>, e: nat, key: string, val: NatObject, x: nat, other: string)
    requires FramesValid(frames) && e < |frames| && x < |frames| && other != key
    requires frames' == frames[e := Frame(frames[e].data[key := val], frames[e].outer)]
    ensures FramesValid(frames')
    ensures EnvFind(frames', x, other) == EnvFind(frames, x, other)
    ensures EnvGet(frames', x, other) == EnvGet(frames, x, other)
    decreases x
  {
    if frames[x].outer.Some? {
      SetOtherKey(frames, frames', e, key, val, frames[x].outer.value, other);
    }
  }

  /** After env_delete the frame no longer shadows: a lookup from it goes on
      to the frames outside. */
  lemma EnvFindAfterDelete(frames: seq<Frame>, e: nat, key: string)
    requires FramesValid(frames) && e < |frames|
    ensures var frames' := frames[e := Frame(frames[e].data - {key}, frames[e].outer)];
            && FramesValid(frames')
            && EnvFind(frames', e, key) == match frames[e].outer
                                           case None => None
                                           case Some(o) => EnvFind(frames, o, key)
  {
    var frames' := frames[e := Frame(frames[e].data - {key}, frames[e].outer)];
    if frames[e].outer.Some? {
      EnvFindLooksOnlyOutward(frames, frames', frames[e].outer.value, key);
    }
  }

  // ---------------------------------------------------------------------
  // Strings.
  // ---------------------------------------------------------------------

  /** nat_string: a fresh String object whose class is what `String` is
      bound to from frame `e`, holding a copy of `s` at capacity |s|. */
  method NatString(envs: Envs, e: nat, s: string) returns (val: NatObject)
    requires envs.Valid() && e < |envs.frames| && EnvGet(envs.frames, e, "String").Some? && CString(s)
    ensures fresh(val) && fresh(val.str) && val.kind == StringType
    ensures val.klass == EnvGet(envs.frames, e, "String").value
    ensures val.StringValid() && val.Contents() == s && val.strCap == |s|
  {
    val := NatNew(EnvGet(envs.frames, e, "String").value);
    val.kind := StringType;
    var len := |s|;
    val.str := new char[len + 1](i requires 0 <= i < len + 1 => if i < |s| then s[i] else NUL);
    val.strLen := len;
    val.strCap := len;
    assert val.str[..val.strLen] == s;
  }

  /** How String_inspect writes one char: '"' and '\' get a backslash. */
  function EscapeChar(c: char): string
  {
    if c == '"' || c == '\\' then ['\\', c] else [c]
  }

  function Escaped(s: string): string
  {
    if s == [] then [] else EscapeChar(s[0]) + Escaped(s[1..])
  }

  /** The text String_inspect produces. */
  function Inspected(s: string): string
  {
    "\"" + Escaped(s) + "\""
  }

  function EscapeCount(s: string): nat
  {
    if s == [] then 0 else (if s[0] == '"' || s[0] == '\\' then 1 else 0) + EscapeCount(s[1..])
  }

  /** Reading back escaped text: a backslash stands for the char after it. */
  function Unescaped(t: string): string
  {
    if t == [] then []
    else if t[0] == '\\' && |t| >= 2 then [t[1]] + Unescaped(t[2..])
    else [t[0]] + Unescaped(t[1..])
  }

  lemma {:induction false} EscapedSnoc(s: string, c: char)
    ensures Escaped(s + [c]) == Escaped(s) + EscapeChar(c)
    decreases |s|
  {
    if s == [] {
      assert [] + [c] == [c];
    } else {
      assert (s + [c])[1..] == s[1..] + [c];
      EscapedSnoc(s[1..], c);
    }
  }

  /** The inspected text is the input, two quotes, and one backslash per escaped char. */
  lemma {:induction false} InspectedLength(s: string)
    ensures |Inspected(s)| == |s| + 2 + EscapeCount(s)
  {
    EscapedLength(s);
  }

  lemma {:induction false} EscapedLength(s: string)
    ensures |Escaped(s)| == |s| + EscapeCount(s)
    decreases |s|
  {
    if s != [] {
      EscapedLength(s[1..]);
    }
  }

  /** Escaping loses nothing: unescaping gives the input back. */
  lemma {:induction false} UnescapeEscaped(s: string)
    ensures Unescaped(Escaped(s)) == s
    decreases |s|
  {
    if s != [] {
      UnescapeEscaped(s[1..]);
      var t := Escaped(s);
      assert t == EscapeChar(s[0]) + Escaped(s[1..]);
      if s[0] == '"' || s[0] == '\\' {
        assert t[0] == '\\' && t[1] == s[0] && t[2..] == Escaped(s[1..]);
      } else {
        assert t[0] == s[0] && t[1..] == Escaped(s[1..]);
      }
    }
  }

  /** Every quote or backslash of the escaped text is escaped itself: no
      unescaped '"' can end the literal early. */
  lemma {:induction false} EscapedHasNoBareQuote(s: string, i: nat)
    requires i < |Escaped(s)| && Escaped(s)[i] == '"'
    ensures i > 0 && Escaped(s)[i - 1] == '\\'
    decreases |s|
  {
    var head := EscapeChar(s[0]);
    var t := Escaped(s);
    assert t == head + Escaped(s[1..]);
    if i >= |head| {
      EscapedHasNoBareQuote(s[1..], i - |head|);
      assert t[i - 1] == Escaped(s[1..])[i - |head| - 1];
    }
  }

  /** One char of String_inspect's loop, escaped when it is '"' or '\'. */
  method AppendEscaped(out: NatObject, c: char)
    requires out.StringValid() && c != NUL
    modifies out, out.str
    ensures out.StringValid() && (out.str == old(out.str) || fresh(out.str))
    ensures out.Contents() == old(out.Contents()) + EscapeChar(c)
    ensures out.Head() == old(out.Head())
  {
    if c == '"' || c == '\\' {
      out.StringAppendChar('\\');
      out.StringAppendChar(c);
    } else {
      out.StringAppendChar(c);
    }
  }

  /** The condition String_inspect asserts of its receiver. */
  const STRING_TYPE_ASSERTION: string := "self->type == NAT_VALUE_STRING"

  /** String_inspect: a fresh String holding the receiver quoted, with
      every '"' and '\' escaped. */
  method StringInspect(envs: Envs, e: nat, self: NatObject) returns (r: Result<NatObject>)
    requires envs.Valid() && e < |envs.frames| && EnvGet(envs.frames, e, "String").Some?
    requires self.kind == StringType ==> self.StringValid()
    ensures self.kind != StringType ==> r == Err(Error(Abort, STRING_TYPE_ASSERTION))
    ensures self.kind == StringType ==>
              && r.Ok? && fresh(r.value) && r.value.kind == StringType
              && r.value.klass == EnvGet(envs.frames, e, "String").value
              && r.value.StringValid() && r.value.Contents() == Inspected(self.Contents())
  {
    if self.kind != StringType {
      return Err(Error(Abort, STRING_TYPE_ASSERTION));
    }
    ghost var content := self.Contents();
    ghost var klass := EnvGet(envs.frames, e, "String").value;
    var out := NatString(envs, e, "\"");
    var i := 0;
    while i < self.strLen
      invariant 0 <= i <= self.strLen
      invariant fresh(out) && fresh(out.str) && out.StringValid()
      invariant out.kind == StringType && out.klass == klass
      invariant out.Contents() == "\"" + Escaped(content[..i])
    {
      var c := self.str[i];
      assert c == content[i];
      assert content[..i + 1] == content[..i] + [c];
      EscapedSnoc(content[..i], c);
      AppendEscaped(out, c);
      i := i + 1;
    }
    out.StringAppendChar('"');
    assert content[..i] == content;
    return Ok(out);
  }

  // ---------------------------------------------------------------------
  // Bootstrap and method lookup.
  // ---------------------------------------------------------------------

  /** The bindings build_top_env makes: Class is its own superclass,
      Object's superclass is Class, NilClass, Numeric and String are
      subclasses of Object, each with its native methods; `self` is an
      Object and `nil` a NilClass instance of type NIL. */
  ghost predicate TopBindings(b: map<string, NatObject>)
    reads b.Values
  {
    && b.Keys == {"Class", "Object", "self", "NilClass", "nil", "Numeric", "String"}
    && var cls := b["Class"];
       var obj := b["Object"];
       var nilClass := b["NilClass"];
       var numeric := b["Numeric"];
       var str := b["String"];
       && cls != obj && obj != nilClass && obj != numeric && obj != str
       && cls.kind == ClassType && cls.name == "Class" && cls.superclass == cls && cls.methods == map[]
       && obj.kind == ClassType && obj.name == "Object" && obj.superclass == cls
       && obj.methods == map["puts" := ObjectPuts]
       && b["self"].kind == OtherType && b["self"].klass == obj
       && nilClass.kind == ClassType && nilClass.name == "NilClass" && nilClass.superclass == obj
       && nilClass.methods == map["to_s" := NilClassToS, "inspect" := NilClassInspect]
       && b["nil"].kind == NilType && b["nil"].klass == nilClass
       && numeric.kind == ClassType && numeric.name == "Numeric" && numeric.superclass == obj
       && numeric.methods == map["to_s" := NumericToS, "inspect" := NumericToS]
       && str.kind == ClassType && str.name == "String" && str.superclass == obj
       && str.methods == map["to_s" := StringToS, "inspect" := StringInspectMethod, "<<" := StringLtlt]
  }

  /** The class `Class`: its own superclass, with no methods. */
  method NewClassClass() returns (cls: NatObject)
    ensures fresh(cls) && cls.kind == ClassType && cls.name == "Class"
    ensures cls.superclass == cls && cls.methods == map[]
  {
    cls := new NatObject.Alloc();
    cls.kind := ClassType;
    cls.name := "Class";
    cls.superclass := cls;
    cls.methods := map[];
  }

  /** A subclass with the given native methods put into its table in order. */
  method NatSubclassWith(superclass: NatObject?, name: string, defs: seq<(string, NativeMethod)>) returns (val: NatObject)
    ensures fresh(val) && val.kind == ClassType && val.name == name && val.superclass == superclass
    ensures val.methods == Defined(defs)
  {
    val := NatSubclass(superclass, name);
    var i := 0;
    while i < |defs|
      invariant 0 <= i <= |defs| && val.methods == Defined(defs[..i])
      invariant val.kind == ClassType && val.name == name && val.superclass == superclass
    {
      assert defs[..i + 1][..i] == defs[..i];
      val.methods := val.methods[defs[i].0 := defs[i].1];
      i := i + 1;
    }
    assert defs[..i] == defs;
  }

  /** The table after putting `defs` in order into an empty one. */
  function Defined(defs: seq<(string, NativeMethod)>): map<string, NativeMethod>
  {
    if defs == [] then map[]
    else Defined(defs[..|defs| - 1])[defs[|defs| - 1].0 := defs[|defs| - 1].1]
  }

  /** build_top_env: one outermost frame with the bootstrap classes and objects. */
  method BuildTopEnv() returns (envs: Envs, top: nat)
    ensures fresh(envs) && envs.Valid() && top == 0 && |envs.frames| == 1 && envs.frames[0].outer == None
    ensures TopBindings(envs.frames[0].data)
  {
    envs := new Envs();
    top := envs.BuildEnv(None);
    var cls, obj, mainObj := BindObjectClasses(envs, top);
    var nilClass, nil := BindNil(envs, top, obj);
    var numeric, str := BindNumericAndString(envs, top, obj);
    assert envs.frames[0].data == map["Class" := cls, "Object" := obj, "self" := mainObj, "NilClass" := nilClass,
                                     "nil" := nil, "Numeric" := numeric, "String" := str];
    TopBindingsOf(cls, obj, mainObj, nilClass, nil, numeric, str);
  }

  /** The first part of build_top_env: `Class`, `Object` and the main object `self`. */
  method BindObjectClasses(envs: Envs, top: nat) returns (cls: NatObject, obj: NatObject, mainObj: NatObject)
    requires envs.Valid() && top < |envs.frames|
    modifies envs
    ensures envs.Valid()
    ensures envs.frames == old(envs.frames)[top := Frame(old(envs.frames[top].data)["Class" := cls]["Object" := obj]["self" := mainObj],
                                                         old(envs.frames[top].outer))]
    ensures fresh(cls) && fresh(obj) && fresh(mainObj) && cls != obj
    ensures cls.kind == ClassType && cls.name == "Class" && cls.superclass == cls && cls.methods == map[]
    ensures obj.kind == ClassType && obj.name == "Object" && obj.superclass == cls
    ensures obj.methods == map["puts" := ObjectPuts]
    ensures mainObj.kind == OtherType && mainObj.klass == obj
  {
    cls := NewClassClass();
    var _ := envs.EnvSet(top, "Class", cls);
    obj := NatSubclassWith(cls, "Object", [("puts", ObjectPuts)]);
    var _ := envs.EnvSet(top, "Object", obj);
    mainObj := NatNew(obj);
    var _ := envs.EnvSet(top, "self", mainObj);
    DefinedTables();
  }

  /** `NilClass` and the object `nil`. */
  method BindNil(envs: Envs, top: nat, obj: NatObject) returns (nilClass: NatObject, nil: NatObject)
    requires envs.Valid() && top < |envs.frames|
    modifies envs
    ensures envs.Valid()
    ensures envs.frames == old(envs.frames)[top := Frame(old(envs.frames[top].data)["NilClass" := nilClass]["nil" := nil],
                                                         old(envs.frames[top].outer))]
    ensures fresh(nilClass) && fresh(nil)
    ensures nilClass.kind == ClassType && nilClass.name == "NilClass" && nilClass.superclass == obj
    ensures nilClass.methods == map["to_s" := NilClassToS, "inspect" := NilClassInspect]
    ensures nil.kind == NilType && nil.klass == nilClass
  {
    nilClass := NatSubclassWith(obj, "NilClass", [("to_s", NilClassToS), ("inspect", NilClassInspect)]);
    var _ := envs.EnvSet(top, "NilClass", nilClass);
    nil := NatNew(nilClass);
    nil.kind := NilType;
    var _ := envs.EnvSet(top, "nil", nil);
    DefinedTables();
  }

  /** `Numeric` and `String`. */
  method BindNumericAndString(envs: Envs, top: nat, obj: NatObject) returns (numeric: NatObject, str: NatObject)
    requires envs.Valid() && top < |envs.frames|
    modifies envs
    ensures envs.Valid()
    ensures envs.frames == old(envs.frames)[top := Frame(old(envs.frames[top].data)["Numeric" := numeric]["String" := str],
                                                         old(envs.frames[top].outer))]
    ensures fresh(numeric) && fresh(str)
    ensures numeric.kind == ClassType && numeric.name == "Numeric" && numeric.superclass == obj
    ensures numeric.methods == map["to_s" := NumericToS, "inspect" := NumericToS]
    ensures str.kind == ClassType && str.name == "String" && str.superclass == obj
    ensures str.methods == map["to_s" := StringToS, "inspect" := StringInspectMethod, "<<" := StringLtlt]
  {
    numeric := NatSubclassWith(obj, "Numeric", [("to_s", NumericToS), ("inspect", NumericToS)]);
    var _ := envs.EnvSet(top, "Numeric", numeric);
    str := NatSubclassWith(obj, "String", [("to_s", StringToS), ("inspect", StringInspectMethod), ("<<", StringLtlt)]);
    var _ := envs.EnvSet(top, "String", str);
    DefinedTables();
  }

  lemma TopBindingsOf(cls: NatObject, obj: NatObject, mainObj: NatObject, nilClass: NatObject,
                      nil: NatObject, numeric: NatObject, str: NatObject)
    requires cls != obj && obj != nilClass && obj != numeric && obj != str
    requires cls.kind == ClassType && cls.name == "Class" && cls.superclass == cls && cls.methods == map[]
    requires obj.kind == ClassType && obj.name == "Object" && obj.superclass == cls
    requires obj.methods == map["puts" := ObjectPuts]
    requires mainObj.kind == OtherType && mainObj.klass == obj
    requires nilClass.kind == ClassType && nilClass.name == "NilClass" && nilClass.superclass == obj
    requires nilClass.methods == map["to_s" := NilClassToS, "inspect" := NilClassInspect]
    requires nil.kind == NilType && nil.klass == nilClass
    requires numeric.kind == ClassType && numeric.name == "Numeric" && numeric.superclass == obj
    requires numeric.methods == map["to_s" := NumericToS, "inspect" := NumericToS]
    requires str.kind == ClassType && str.name == "String" && str.superclass == obj
    requires str.methods == map["to_s" := StringToS, "inspect" := StringInspectMethod, "<<" := StringLtlt]
    ensures TopBindings(map["Class" := cls, "Object" := obj, "self" := mainObj, "NilClass" := nilClass,
                            "nil" := nil, "Numeric" := numeric, "String" := str])
  {
  }

  lemma DefinedTables()
    ensures Defined([("puts", ObjectPuts)]) == map["puts" := ObjectPuts]
    ensures Defined([("to_s", NilClassToS), ("inspect", NilClassInspect)])
            == map["to_s" := NilClassToS, "inspect" := NilClassInspect]
    ensures Defined([("to_s", NumericToS), ("inspect", NumericToS)])
            == map["to_s" := NumericToS, "inspect" := NumericToS]
    ensures Defined([("to_s", StringToS), ("inspect", StringInspectMethod), ("<<", StringLtlt)])
            == map["to_s" := StringToS, "inspect" := StringInspectMethod, "<<" := StringLtlt]
  {
    var d3 := [("to_s", StringToS), ("inspect", StringInspectMethod), ("<<", StringLtlt)];
    assert d3[..2] == [("to_s", StringToS), ("inspect", StringInspectMethod)];
    assert d3[..2][..1] == [("to_s", StringToS)];
    var d2 := [("to_s", NilClassToS), ("inspect", NilClassInspect)];
    assert d2[..1] == [("to_s", NilClassToS)];
    var n2 := [("to_s", NumericToS), ("inspect", NumericToS)];
    assert n2[..1] == [("to_s", NumericToS)];
  }

  /** What nat_send prints before it aborts on a missing method. */
  function NoMethodMessage(sym: string): string
  {
    "Error: object has no " + sym + " method, cannot call send.\n"
  }

  /** nat_send's lookup: the receiver's own class table only, with no walk
      up the superclass chain; a miss aborts. */
  function NatSend(receiver: NatObject, sym: string): (r: Result<NativeMethod>)
    reads receiver, receiver.klass
    requires receiver.klass != null
    ensures sym in receiver.klass.methods <==> r.Ok?
    ensures r.Ok? ==> r.value == receiver.klass.methods[sym]
    ensures r.Err? ==> r.error == Error(Abort, NoMethodMessage(sym))
  {
    if sym in receiver.klass.methods then Ok(receiver.klass.methods[sym])
    else Err(Error(Abort, NoMethodMessage(sym)))
  }

  /** Sending looks only at the receiver's own class: a selector that only
      its superclass defines is still missing. */
  lemma SendIgnoresSuperclass(receiver: NatObject, sym: string)
    requires receiver.klass != null && receiver.klass.superclass != null
    requires sym !in receiver.klass.methods && sym in receiver.klass.superclass.methods
    ensures NatSend(receiver, sym) == Err(Error(Abort, NoMethodMessage(sym)))
  {
  }

  /** In the bootstrap bindings, String defines `inspect` but not `puts`,
      which only its superclass Object defines. */
  lemma TopStringClass(frames: seq<Frame>)
    requires FramesValid(frames) && |frames| == 1 && TopBindings(frames[0].data)
    ensures EnvGet(frames, 0, "String") == Some(frames[0].data["String"])
    ensures var str := frames[0].data["String"];
            && str.superclass == frames[0].data["Object"] && "puts" in str.superclass.methods
            && str.methods == map["to_s" := StringToS, "inspect" := StringInspectMethod, "<<" := StringLtlt]
  {
  }

  /** A string built in the top frame finds String's own methods but not
      `puts`, which only its superclass Object defines. */
  method SendFromTopString() returns (inspect: Result<NativeMethod>, puts: Result<NativeMethod>)
    ensures inspect == Ok(StringInspectMethod)
    ensures puts == Err(Error(Abort, NoMethodMessage("puts")))
  {
    var envs, top := BuildTopEnv();
    TopStringClass(envs.frames);
    ghost var str := envs.frames[0].data["String"];
    var s := NatString(envs, top, "hi");
    assert s.klass == str;
    inspect := NatSend(s, "inspect");
    puts := NatSend(s, "puts");
  }
}
