/** The matrix of published states that both deadlock assignments share: a row for each process. */
module StateMatrix {

  type Matrix = seq<seq<int>>

  ghost predicate Shaped(m: Matrix, columns: nat) { forall i :: 0 <= i < |m| ==> |m[i]| == columns }
}
