/** Outcomes and identifiers shared by the other modules. */
module Wrappers {

  datatype Option<+T> = None | Some(value: T) {
    function GetOr(default: T): T {
      match this
      case None => default
      case Some(v) => v
    }
  }

  /** The error classes thrown by the services. */
  datatype AppError = BadRequest | NotFound | InternalServer

  datatype Result<+T> = Ok(value: T) | Err(error: AppError)

  /** An id that is not in use. */
  lemma {:induction false} FreshId(used: set<nat>) returns (p: nat)
    ensures p !in used && forall q :: q in used ==> q < p
  {
    if used == {} {
      p := 0;
    } else {
      var x :| x in used;
      var rest := FreshId(used - {x});
      p := if x < rest then rest else x + 1;
      assert forall q :: q in used ==> q == x || q in used - {x};
    }
  }

  /** A string that is not in use: longer than all that are. */
  lemma FreshKey(used: set<string>) returns (key: string)
    ensures key !in used
  {
    var p := FreshId(set k | k in used :: |k|);
    key := seq(p, _ => 'k');
    assert |key| == p;
  }
}
