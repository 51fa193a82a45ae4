/** Byte arrays in one buffer, each ended by a NUL, and what reading such a buffer gives back. */
module NulCodec {
  import opened Lists

  /** C's strlen at the start of a buffer that has a NUL after its end. */
  function Strlen(buf: string): (k: nat)
    ensures k <= |buf| && (k < |buf| ==> buf[k] == '\0')
    ensures forall i | 0 <= i < k :: buf[i] != '\0'
  {
    if buf == "" || buf[0] == '\0' then 0 else 1 + Strlen(buf[1..])
  }

  /** What a C string copy keeps. */
  function CString(s: string): string {
    s[..Strlen(s)]
  }

  predicate NulFree(s: string) {
    '\0' !in s
  }

  lemma UpToNul(text: string)
    requires NulFree(text)
    ensures CString(text) == text
  {
    assert Strlen(text) == |text|;
  }

  function Encode(arrays: seq<string>): string {
    if arrays == [] then "" else arrays[0] + "\0" + Encode(arrays[1..])
  }

  /** The stretches a buffer's NULs end, and what follows the last one if there is anything. */
  function Decode(buf: string): seq<string>
    decreases |buf|
  {
    if buf == "" then []
    else if Strlen(buf) == |buf| then [buf]
    else [buf[..Strlen(buf)]] + Decode(buf[Strlen(buf) + 1..])
  }

  function NonEmpty(arrays: seq<string>): seq<string> {
    if arrays == [] then [] else (if arrays[0] == "" then [] else [arrays[0]]) + NonEmpty(arrays[1..])
  }

  lemma DecodeFirst(s: string, rest: string)
    requires NulFree(s)
    ensures Decode(s + "\0" + rest) == [s] + Decode(rest)
  {
    var buf := s + "\0" + rest;
    assert buf[|s|] == '\0';
    assert forall i | 0 <= i < |s| :: buf[i] == s[i];
    assert Strlen(buf) == |s|;
    assert buf[..|s|] == s;
    assert buf[|s| + 1..] == rest;
  }

  lemma DecodeLast(s: string)
    requires NulFree(s) && s != ""
    ensures Decode(s) == [s]
  {
    assert Strlen(s) == |s|;
  }

  /** Decoding undoes encoding, empty arrays included. */
  lemma {:induction false} DecodeUndoesEncode(arrays: seq<string>)
    requires forall i | 0 <= i < |arrays| :: NulFree(arrays[i])
    ensures Decode(Encode(arrays)) == arrays
  {
    if arrays != [] {
      DecodeFirst(arrays[0], Encode(arrays[1..]));
      DecodeUndoesEncode(arrays[1..]);
    }
  }

  /** A buffer with the NUL at its end that it may lack. */
  function Ended(buf: string): string {
    if buf == "" || buf[|buf| - 1] == '\0' then buf else buf + "\0"
  }

  /** Encoding undoes decoding, but for the missing NUL at the end of a buffer that lacks one. */
  lemma {:induction false} EncodeUndoesDecode(buf: string)
    ensures Encode(Decode(buf)) == Ended(buf)
    decreases |buf|
  {
    var k := Strlen(buf);
    if buf == "" {
    } else if k == |buf| {
      DecodeLast(buf);
      hide *;
      EncodeMore(buf, []);
      NotLast(buf);
    } else {
      DecodeSplits(buf);
      hide *;
      var part, rest := buf[..k], buf[k + 1..];
      EncodeUndoesDecode(rest);
      EncodeMore(part, Decode(rest));
      EndedMore(part, rest);
      CutAt(buf, k);
    }
  }

  lemma CutAt(buf: string, k: nat)
    requires k < |buf| && buf[k] == '\0'
    ensures buf == buf[..k] + "\0" + buf[k + 1..]
  {
  }

  lemma {:induction false} DecodedAreNulFree(buf: string)
    ensures forall i | 0 <= i < |Decode(buf)| :: NulFree(Decode(buf)[i])
    decreases |buf|
  {
    if Strlen(buf) < |buf| {
      DecodedAreNulFree(buf[Strlen(buf) + 1..]);
    }
  }

  /** What a buffer decodes to: the one list of NUL-free arrays whose encoding it is, but for the NUL it may lack. */
  lemma DecodeExact(buf: string, arrays: seq<string>)
    ensures Decode(buf) == arrays <==> (forall i | 0 <= i < |arrays| :: NulFree(arrays[i])) && Encode(arrays) == Ended(buf)
  {
    EncodeUndoesDecode(buf);
    DecodedAreNulFree(buf);
    DecodeUndoesEncode(Decode(buf));
    if forall i | 0 <= i < |arrays| :: NulFree(arrays[i]) {
      DecodeUndoesEncode(arrays);
    }
  }

  lemma EndedMore(part: string, rest: string)
    ensures Ended(part + "\0" + rest) == part + "\0" + Ended(rest)
  {
    var front := part + "\0";
    if rest == "" {
      assert front + rest == front;
    } else {
      assert (front + rest)[|front + rest| - 1] == rest[|rest| - 1];
      Regroup(front, rest, "\0");
    }
  }

  lemma NotLast(buf: string)
    requires buf != "" && Strlen(buf) == |buf|
    ensures Ended(buf) == buf + "\0" && NulFree(buf) && Encode([]) == ""
  {
  }

  lemma DecodeSplits(buf: string)
    requires Strlen(buf) < |buf|
    ensures NulFree(buf[..Strlen(buf)]) && Decode(buf) == [buf[..Strlen(buf)]] + Decode(buf[Strlen(buf) + 1..])
    ensures buf[Strlen(buf)] == '\0'
  {
  }

  lemma EncodeMore(part: string, arrays: seq<string>)
    ensures Encode([part] + arrays) == part + "\0" + Encode(arrays)
    ensures [part] + [] == [part]
  {
    assert ([part] + arrays)[1..] == arrays;
  }
}
