/** Small shared vocabulary: optional values, and joining rendered pieces with a separator. */
module Prelude {

  datatype Option<+T> = None | Some(value: T)

  /** The pieces one after the other, with `sep` between neighbours (Rust's `join`). */
  function Join(pieces: seq<string>, sep: string): string {
    if |pieces| == 0 then ""
    else if |pieces| == 1 then pieces[0]
    else Join(pieces[..|pieces| - 1], sep) + sep + pieces[|pieces| - 1]
  }

  /** Appending one piece, the step every "write a comma unless first" loop takes. */
  lemma JoinSnoc(pieces: seq<string>, i: nat, sep: string)
    requires i < |pieces|
    ensures Join(pieces[..i + 1], sep) == Join(pieces[..i], sep) + (if i > 0 then sep else "") + pieces[i]
  {
    assert pieces[..i + 1][..i] == pieces[..i];
  }
}
