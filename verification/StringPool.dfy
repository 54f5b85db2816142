/** The builder's interned strings and the server's lookup of a string by its offset. */
module StringPool {
  import opened Bytes
  import opened Utf8
  import opened Wrappers

  /** The bytes of a string. */
  type Text = seq<Byte>

  const NUL: Byte := 0

  /** The pool: where each interned string starts, and the bytes of `strings.bin`. */
  datatype Pool = Pool(index: map<Text, U32>, data: File)

  const EMPTY_POOL := Pool(map[[] := 0], [NUL])

  datatype Failure = OffsetTooLarge

  /** A new string needs an offset beyond 32 bits. */
  predicate Refused(p: Pool, s: Text) {
    s !in p.index && |p.data| > U32_MAX
  }

  /** The pool after interning `s`. */
  function Interned(p: Pool, s: Text): Pool
    requires !Refused(p, s)
  {
    if s in p.index then p else Pool(p.index[s := |p.data|], p.data + s + [NUL])
  }

  /** The bytes before the first NUL. */
  function UpToNul(bytes: File): (s: Text)
    ensures s <= bytes && NUL !in s
    ensures |s| < |bytes| ==> bytes[|s|] == NUL
  {
    if bytes == [] || bytes[0] == NUL then [] else [bytes[0]] + UpToNul(bytes[1..])
  }

  /** What the server reads at an offset; offset zero is the missing value. */
  function StringAt(data: File, offset: nat): Text
    requires offset <= |data|
  {
    if offset == 0 then [] else UpToNul(data[offset..])
  }

  class StringTable {
    var index: map<Text, U32>
    var data: File

    ghost function Contents(): Pool
      reads this
    {
      Pool(index, data)
    }

    constructor ()
      ensures Contents() == EMPTY_POOL
    {
      index, data := map[[] := 0], [NUL];
    }

    /** `intern`: the old offset of a known string, or a new one at the end. */
    method Intern(s: Text) returns (r: Result<U32, Failure>)
      modifies this
      ensures r.Err? <==> Refused(old(Contents()), s)
      ensures r.Err? ==> Contents() == old(Contents())
      ensures r.Ok? ==> Contents() == Interned(old(Contents()), s) && s in index && r.value == index[s]
    {
      if s in index {
        return Ok(index[s]);
      }
      if |data| > U32_MAX {
        return Err(OffsetTooLarge);
      }
      var offset := |data|;
      index := index[s := offset];
      data := data + s;
      data := data + [NUL];
      return Ok(offset);
    }
  }

  // --- Reading strings ---

  /** A NUL is no part of a longer character, so what precedes the first one is well-formed too. */
  lemma {:induction false} UpToNulIsUtf8(s: Text)
    requires IsUtf8(s)
    ensures IsUtf8(UpToNul(s))
  {
    if s != [] && s[0] != NUL {
      var n := CharLength(s);
      UpToNulIsUtf8(s[n..]);
      var t := s[..n] + UpToNul(s[n..]);
      assert forall i :: 0 <= i < n ==> t[i] == s[i];
      FirstNul(s, t);
      CharLengthLocal(s, t);
      assert t[n..] == UpToNul(s[n..]);
    }
  }

  /** What the server returns: nothing for bytes that are not UTF-8. */
  function ReadString(data: File, offset: nat): Text
    requires offset <= |data|
  {
    if IsUtf8(StringAt(data, offset)) then StringAt(data, offset) else []
  }

  /** `get_string`. */
  method GetString(strings: File, offset: nat) returns (s: Text)
    requires offset <= |strings|
    ensures s == ReadString(strings, offset)
  {
    if offset == 0 {
      return [];
    }
    var end := offset;
    while end < |strings| && strings[end] != NUL
      invariant offset <= end <= |strings|
      invariant NUL !in strings[offset..end]
    {
      assert strings[offset..end + 1] == strings[offset..end] + [strings[end]];
      end := end + 1;
    }
    s := strings[offset..end];
    FirstNul(strings[offset..], s);
    if !IsUtf8(s) {
      s := [];
    }
  }

  /** The prefix before the first NUL is unique. */
  lemma {:induction false} FirstNul(bytes: File, s: Text)
    requires s <= bytes && NUL !in s && (|s| < |bytes| ==> bytes[|s|] == NUL)
    ensures UpToNul(bytes) == s
  {
    if s != [] {
      assert s[0] in s;
      FirstNul(bytes[1..], s[1..]);
    }
  }

  // --- What every run of interns keeps ---

  /** `s` stands at `offset`, closed by a NUL. */
  ghost predicate StandsAt(data: File, offset: nat, s: Text) {
    offset + |s| < |data| && data[offset..offset + |s|] == s && data[offset + |s|] == NUL
  }

  ghost predicate Valid(p: Pool) {
    && StandsAt(p.data, 0, []) && [] in p.index && p.index[[]] == 0
    && (forall s :: s in p.index ==> StandsAt(p.data, p.index[s], s))
    && (forall s, t :: s in p.index && t in p.index && p.index[s] == p.index[t] ==> s == t)
  }

  lemma StandsLonger(data: File, more: File, offset: nat, s: Text)
    requires StandsAt(data, offset, s)
    ensures StandsAt(data + more, offset, s)
  {
    assert (data + more)[offset..offset + |s|] == data[offset..offset + |s|];
  }

  lemma InternedValid(p: Pool, s: Text)
    requires Valid(p) && !Refused(p, s)
    ensures Valid(Interned(p, s)) && s in Interned(p, s).index
    ensures forall t :: t in p.index ==> t in Interned(p, s).index && Interned(p, s).index[t] == p.index[t]
  {
    if s !in p.index {
      var q := Interned(p, s);
      assert q.data == p.data + (s + [NUL]);
      forall t | t in q.index ensures StandsAt(q.data, q.index[t], t) {
        if t in p.index {
          StandsLonger(p.data, s + [NUL], p.index[t], t);
        } else {
          assert q.data[|p.data|..|p.data| + |s|] == s;
        }
      }
      StandsLonger(p.data, s + [NUL], 0, []);
    }
  }

  /** Interning a list of strings, one after the other. */
  function InternAll(p: Pool, names: seq<Text>): Option<Pool> {
    if names == [] then Some(p)
    else
      var before := InternAll(p, names[..|names| - 1]);
      if before.None? || Refused(before.value, names[|names| - 1]) then None
      else Some(Interned(before.value, names[|names| - 1]))
  }

  lemma EmptyPoolValid()
    ensures Valid(EMPTY_POOL)
  {}

  lemma {:induction false} InternAllValid(p: Pool, names: seq<Text>)
    requires Valid(p) && InternAll(p, names).Some?
    ensures Valid(InternAll(p, names).value)
    ensures forall t :: t in p.index ==>
              t in InternAll(p, names).value.index && InternAll(p, names).value.index[t] == p.index[t]
    ensures forall i :: 0 <= i < |names| ==> names[i] in InternAll(p, names).value.index
  {
    if names != [] {
      var front, last := names[..|names| - 1], names[|names| - 1];
      InternAllValid(p, front);
      InternedValid(InternAll(p, front).value, last);
      forall i | 0 <= i < |names| ensures names[i] in InternAll(p, names).value.index {
        if i < |front| { assert front[i] == names[i]; }
      }
    }
  }

  /** An id reads back as its string up to the first NUL, and is zero only for the empty string. */
  lemma IdReadsBack(p: Pool, s: Text)
    requires Valid(p) && s in p.index
    ensures p.index[s] <= |p.data|
    ensures StringAt(p.data, p.index[s]) == UpToNul(s)
    ensures IsUtf8(s) ==> ReadString(p.data, p.index[s]) == UpToNul(s)
    ensures p.index[s] == 0 <==> s == []
  {
    if IsUtf8(s) {
      UpToNulIsUtf8(s);
    }
    if p.index[s] == 0 {
      assert p.index[s] == p.index[[]];
    } else {
      var tail := p.data[p.index[s]..];
      assert s <= tail && tail[|s|] == NUL;
      assert UpToNul(s) < tail && tail[|UpToNul(s)|] == NUL;
      FirstNul(tail, UpToNul(s));
    }
  }

  lemma NulFree(s: Text)
    ensures UpToNul(s) == s <==> NUL !in s
  {
    if NUL !in s {
      FirstNul(s, s);
    }
  }

  /**
   Over any run from the empty pool: an id handed out after `names` still reads back after
   `later`, as the whole string exactly if that is UTF-8 and free of NULs; and no two strings share an id.
   */
  lemma IdsStay(names: seq<Text>, later: seq<Text>, i: nat, j: nat)
    requires i < |names| && j < |names|
    requires InternAll(EMPTY_POOL, names).Some?
    requires InternAll(InternAll(EMPTY_POOL, names).value, later).Some?
    ensures var now := InternAll(EMPTY_POOL, names).value;
            var then' := InternAll(now, later).value;
            && names[i] in now.index && names[j] in now.index && now.index[names[i]] <= |then'.data|
            && (ReadString(then'.data, now.index[names[i]]) == names[i] <==>
                IsUtf8(names[i]) && NUL !in names[i])
            && (now.index[names[i]] == now.index[names[j]] <==> names[i] == names[j])
            && (now.index[names[i]] == 0 <==> names[i] == [])
  {
    EmptyPoolValid();
    InternAllValid(EMPTY_POOL, names);
    var now := InternAll(EMPTY_POOL, names).value;
    InternAllValid(now, later);
    IdReadsBack(InternAll(now, later).value, names[i]);
    IdReadsBack(now, names[i]);
    NulFree(names[i]);
  }
}
