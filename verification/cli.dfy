/**
 * The parts of the command-line front end with logic in them: the output write mode
 * and its display names, and the splitting of the `--fields` argument into
 * selectors.  Argument parsing itself belongs to clap and is not modelled.
 */
module Cli {
  import opened Wrappers
  import opened Text

  /** What to do with an output file that already exists. */
  datatype WriteMode = Overwrite | Append | Error

  /** `Display for WriteMode`: each variant prints as its own name. */
  function ModeName(m: WriteMode): (s: string)
    ensures |s| >= 5 && 'A' <= s[0] <= 'Z'
  {
    match m
    case Overwrite => "Overwrite"
    case Append => "Append"
    case Error => "Error"
  }

  /** Distinct modes display distinctly, so the printed name identifies the mode. */
  lemma ModeNameInjective(a: WriteMode, b: WriteMode)
    ensures ModeName(a) == ModeName(b) <==> a == b
  {
    if a != b {
      assert ModeName(a)[0] != ModeName(b)[0] || |ModeName(a)| != |ModeName(b)|;
    }
  }

  /** A selector as `get_fields` returns it: non-empty, no surrounding whitespace. */
  predicate IsSelector(e: string)
  {
    e != "" && Trimmed(e)
  }

  predicate NoComma(s: string) { ',' !in s }

  /**
   * The `map(trim)` and `filter(non-empty)` stages of `get_fields`, applied to the
   * pieces in order.
   */
  function TrimmedPieces(pieces: seq<string>): (r: seq<string>)
    ensures |r| <= |pieces|
    ensures forall e :: e in r ==> IsSelector(e)
  {
    if pieces == [] then []
    else
      var t := Trim(pieces[0]);
      var rest := TrimmedPieces(pieces[1..]);
      if t == "" then rest else [t] + rest
  }

  /** The stages work piece by piece, so the pieces of a concatenation come out in order. */
  lemma {:induction false} TrimmedPiecesAppend(a: seq<string>, b: seq<string>)
    ensures TrimmedPieces(a + b) == TrimmedPieces(a) + TrimmedPieces(b)
  {
    if a == [] {
      assert a + b == b;
    } else {
      assert (a + b)[0] == a[0];
      assert (a + b)[1..] == a[1..] + b;
      TrimmedPiecesAppend(a[1..], b);
    }
  }

  /** Some piece trims to `t`. */
  predicate SomePieceTrimsTo(pieces: seq<string>, t: string)
  {
    exists p :: p in pieces && Trim(p) == t
  }

  /** A piece trims to `t` when the first one does or one of the rest does. */
  lemma SomePieceTrimsToStep(pieces: seq<string>, t: string)
    requires pieces != []
    ensures SomePieceTrimsTo(pieces, t) <==> Trim(pieces[0]) == t || SomePieceTrimsTo(pieces[1..], t)
  {
    assert pieces == [pieces[0]] + pieces[1..];
    if SomePieceTrimsTo(pieces, t) && Trim(pieces[0]) != t {
      var p :| p in pieces && Trim(p) == t;
      assert p in pieces[1..];
    }
    if Trim(pieces[0]) == t {
      assert pieces[0] in pieces;
    }
  }

  /** A selector comes out exactly when it is the non-empty trim of some piece. */
  lemma {:induction false} TrimmedPiecesMembers(pieces: seq<string>, t: string)
    ensures t in TrimmedPieces(pieces) <==> t != "" && SomePieceTrimsTo(pieces, t)
  {
    if pieces != [] {
      var t0 := Trim(pieces[0]);
      var rest := TrimmedPieces(pieces[1..]);
      assert TrimmedPieces(pieces) == if t0 == "" then rest else [t0] + rest;
      TrimmedPiecesMembers(pieces[1..], t);
      SomePieceTrimsToStep(pieces, t);
    }
  }

  /** Trimming only removes characters, so pieces free of commas give selectors free of commas. */
  lemma {:induction false} TrimmedPiecesNoComma(pieces: seq<string>)
    requires forall j :: 0 <= j < |pieces| ==> NoComma(pieces[j])
    ensures forall e :: e in TrimmedPieces(pieces) ==> NoComma(e)
  {
    if pieces != [] {
      TrimAbsent(pieces[0], ',');
      TrimmedPiecesNoComma(pieces[1..]);
    }
  }

  /** When no piece trims to nothing, every piece comes out, trimmed, in its own position. */
  lemma {:induction false} TrimmedPiecesAll(pieces: seq<string>)
    requires forall j :: 0 <= j < |pieces| ==> Trim(pieces[j]) != ""
    ensures |TrimmedPieces(pieces)| == |pieces|
    ensures forall i :: 0 <= i < |pieces| ==> TrimmedPieces(pieces)[i] == Trim(pieces[i])
  {
    if pieces != [] {
      TrimmedPiecesAll(pieces[1..]);
    }
  }

  /**
   * `Args::get_fields`: no `--fields` gives None; otherwise the comma-separated
   * pieces, trimmed, with the empty ones dropped.
   */
  function GetFields(fields: Option<string>): (r: Option<seq<string>>)
    ensures r.None? <==> fields.None?
    ensures r.Some? ==> |r.value| <= Count(fields.value, ',') + 1
    ensures r.Some? ==> forall e :: e in r.value ==> IsSelector(e) && ',' !in e
  {
    match fields
    case None => None
    case Some(f) =>
      TrimmedPiecesNoComma(Split(f, ','));
      Some(TrimmedPieces(Split(f, ',')))
  }

  /** Selectors keep their input order: the selectors of "a,b" are those of "a" followed by those of "b". */
  lemma GetFieldsConcat(a: string, b: string)
    ensures GetFields(Some(a + "," + b)).value == GetFields(Some(a)).value + GetFields(Some(b)).value
  {
    SplitAtSeparator(a, b, ',');
    TrimmedPiecesAppend(Split(a, ','), Split(b, ','));
  }

  /** A piece without a comma gives its own trim, or nothing when that is empty. */
  lemma GetFieldsSingle(f: string)
    requires ',' !in f
    ensures GetFields(Some(f)).value == if Trim(f) == "" then [] else [Trim(f)]
  {
    SplitNoSeparator(f, ',');
  }

  /** Pieces that are already selectors pass through the trim and filter stages unchanged. */
  lemma TrimmedPiecesSelectors(selectors: seq<string>)
    requires forall i :: 0 <= i < |selectors| ==> IsSelector(selectors[i])
    ensures TrimmedPieces(selectors) == selectors
  {
    forall i | 0 <= i < |selectors|
      ensures Trim(selectors[i]) == selectors[i]
    {
      TrimUnchanged(selectors[i]);
    }
    TrimmedPiecesAll(selectors);
  }

  /**
   * Selectors already in the shape `get_fields` returns survive a round trip through
   * the command line: joining them with commas and splitting again gives them back.
   */
  lemma GetFieldsJoin(selectors: seq<string>)
    requires forall i :: 0 <= i < |selectors| ==> IsSelector(selectors[i]) && NoComma(selectors[i])
    ensures GetFields(Some(Join(selectors, ','))) == Some(selectors)
  {
    if selectors == [] {
      assert Split("", ',') == [""];
      assert TrimmedPieces([""]) == [];
    } else {
      SplitJoin(selectors, ',');
      TrimmedPiecesSelectors(selectors);
    }
  }
}
