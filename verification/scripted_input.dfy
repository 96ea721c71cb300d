/**
  The finite test double for key input: any iterator of keys is an input
  reader, and each `read_key` takes the iterator's next item. A `Vec<Key>`
  turned into an iterator is modelled as the sequence of keys not yet read,
  consumed head-first. `K` stands for the key type, which this model keeps
  opaque.
*/
module ScriptedInput {
  import opened Results

  /** The kind of `std::io::Error` the reader produces. */
  datatype IoErrorKind = UnexpectedEof

  datatype IoError = IoError(kind: IoErrorKind, message: string)

  /** `InquireError`, restricted to the variant the reader raises. */
  datatype InquireError = IO(error: IoError)

  /** The outcome of one `read_key`: the key or the error, and the keys still unread. */
  datatype Read<K> = Read(result: Result<K, InquireError>, rest: seq<K>)

  /** The error a reader signals once the script has run out. */
  const EndOfInput: InquireError := IO(IoError(UnexpectedEof, "No more keys in input"))

  /** `read_key`: the next key of the script, or `UnexpectedEof` when none is left. */
  function ReadKey<K>(script: seq<K>): (r: Read<K>)
    ensures r.result.Err? <==> script == []
    ensures r.result.Err? ==> r.result.error == EndOfInput && r.rest == []
    ensures r.result.Ok? ==> [r.result.value] + r.rest == script
  {
    if |script| == 0 then Read(Err(EndOfInput), script)
    else Read(Ok(script[0]), script[1..])
  }

  /** The keys still unread after `j` calls to `read_key`, whatever they returned. */
  function After<K>(script: seq<K>, j: nat): seq<K>
    decreases j
  {
    if j == 0 then script else After(ReadKey(script).rest, j - 1)
  }

  /** What the call to `read_key` numbered `j` (from 0) returns. */
  function ReadAt<K>(script: seq<K>, j: nat): Result<K, InquireError>
  {
    ReadKey(After(script, j)).result
  }

  /** After `j` reads the script has lost exactly its first `j` keys, or all of them. */
  lemma {:induction false} AfterDropsPrefix<K>(script: seq<K>, j: nat)
    ensures j <= |script| ==> After(script, j) == script[j..]
    ensures j >= |script| ==> After(script, j) == []
    decreases j
  {
    if j > 0 {
      AfterDropsPrefix(ReadKey(script).rest, j - 1);
      if 0 < |script| && j <= |script| {
        assert script[1..][j - 1..] == script[j..];
      } else if |script| == 0 {
        EmptyStaysEmpty<K>(j - 1);
      }
    }
  }

  lemma {:induction false} EmptyStaysEmpty<K>(j: nat)
    ensures After<K>([], j) == []
    decreases j
  {
    if j > 0 {
      EmptyStaysEmpty<K>(j - 1);
    }
  }

  /** Read `j` returns key `j` of the script while keys remain, and `UnexpectedEof` ever after. */
  lemma ReadAtIsIndex<K>(script: seq<K>, j: nat)
    ensures j < |script| ==> ReadAt(script, j) == Ok(script[j])
    ensures j >= |script| ==> ReadAt(script, j) == Err(EndOfInput)
  {
    AfterDropsPrefix(script, j);
  }

  /** Once exhausted, a script stays empty and every further read fails the same way. */
  lemma ExhaustedStaysExhausted<K>(script: seq<K>, j: nat, i: nat)
    requires After(script, j) == []
    ensures After(script, j + i) == []
    ensures ReadAt(script, j + i) == Err(EndOfInput)
  {
    AfterDropsPrefix(script, j);
    AfterDropsPrefix(script, j + i);
  }

  /**
    `k` successive calls to `read_key`, stopping at the first error: the keys
    read, the keys left, and the error if one was raised.
  */
  method ReadKeys<K>(script: seq<K>, k: nat) returns (keys: seq<K>, rest: seq<K>, error: Option<InquireError>)
    ensures k <= |script| ==> keys == script[..k] && rest == script[k..] && error == None
    ensures k > |script| ==> keys == script && rest == [] && error == Some(EndOfInput)
  {
    keys, rest, error := [], script, None;
    var n := 0;
    while n < k
      invariant n <= k && n <= |script|
      invariant keys == script[..n] && rest == script[n..]
      invariant error == None
    {
      var r := ReadKey(rest);
      if r.result.Err? {
        return keys, r.rest, Some(r.result.error);
      }
      keys := keys + [r.result.value];
      rest := r.rest;
      n := n + 1;
    }
  }

  /** The in-memory backend, reduced to the key reader it owns. */
  datatype Backend<K> = Backend(reader: seq<K>)

  /** `fake_backend`: a backend whose reader replays the given keys in order, then signals end of input. */
  function FakeBackend<K>(input: seq<K>): (b: Backend<K>)
    ensures forall j: nat :: j < |input| ==> ReadAt(b.reader, j) == Ok(input[j])
    ensures forall j: nat :: j >= |input| ==> ReadAt(b.reader, j) == Err(EndOfInput)
  {
    assert forall j: nat :: ReadAt(input, j) == (if j < |input| then Ok(input[j]) else Err(EndOfInput)) by {
      forall j: nat {
        ReadAtIsIndex(input, j);
      }
    }
    Backend(input)
  }
}
