/** Bytes and blobs: the immutable byte containers passed between the recorder and the worker. */
module Blobs {

  /** An unsigned byte, as held by an ArrayBuffer or a Uint8Array. */
  type Byte = b: int | 0 <= b < 256

  /** A Blob: immutable bytes tagged with a MIME type. `size` is the length of `bytes`. */
  datatype Blob = Blob(bytes: seq<Byte>, mimeType: string)

  /** The bytes of `new Blob(parts)`: every part, in order, with nothing between them. */
  function Join(parts: seq<seq<Byte>>): seq<Byte>
  {
    if parts == [] then [] else Join(parts[..|parts| - 1]) + parts[|parts| - 1]
  }

  /** The parts of a list that are not empty, in their original order. */
  function NonEmpty(parts: seq<seq<Byte>>): (kept: seq<seq<Byte>>)
    ensures |kept| <= |parts|
    ensures forall i | 0 <= i < |kept| :: kept[i] != []
  {
    if parts == [] then []
    else
      var last := parts[|parts| - 1];
      NonEmpty(parts[..|parts| - 1]) + (if last == [] then [] else [last])
  }

  /** Joining is a homomorphism from concatenation of part lists to concatenation of bytes. */
  lemma {:induction false} JoinConcat(a: seq<seq<Byte>>, b: seq<seq<Byte>>)
    ensures Join(a + b) == Join(a) + Join(b)
    decreases |b|
  {
    if b == [] {
      assert a + b == a;
    } else {
      var n := |b| - 1;
      assert (a + b)[..|a + b| - 1] == a + b[..n];
      JoinConcat(a, b[..n]);
    }
  }

  /** Dropping the empty parts never changes the joined bytes. */
  lemma {:induction false} JoinNonEmpty(parts: seq<seq<Byte>>)
    ensures Join(NonEmpty(parts)) == Join(parts)
    decreases |parts|
  {
    if parts != [] {
      var init, last := parts[..|parts| - 1], parts[|parts| - 1];
      JoinNonEmpty(init);
      JoinConcat(NonEmpty(init), if last == [] then [] else [last]);
      assert Join([last]) == last by { assert [last][..0] == parts[..0]; }
    }
  }

  /** A list of parts joins to nothing exactly when every part is empty. */
  lemma {:induction false} JoinEmptyIff(parts: seq<seq<Byte>>)
    ensures Join(parts) == [] <==> forall i | 0 <= i < |parts| :: parts[i] == []
    decreases |parts|
  {
    if parts != [] {
      var init := parts[..|parts| - 1];
      JoinEmptyIff(init);
      if Join(parts) == [] {
        forall i | 0 <= i < |parts| ensures parts[i] == [] {
          if i < |init| { assert parts[i] == init[i]; }
        }
      }
    }
  }

  /** The non-empty parts are empty exactly when the joined bytes are. */
  lemma NonEmptyIsEmptyIff(parts: seq<seq<Byte>>)
    ensures NonEmpty(parts) == [] <==> Join(parts) == []
  {
  }
}
