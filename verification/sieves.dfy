/** The fixed sieve series the input table is built on, coarsest first. */
module Sieves {

  /** The 21 designations in table order, ending with the pan. */
  const Standard: seq<string> := [
    "3″", "2½″", "2″", "1½″", "1″", "3/4", "1/2", "3/8", "1/4", "N 4",
    "N 8", "N 10", "N 16", "N 20", "N 30", "N 40", "N 50", "N 80", "N 100", "N 200", "FONDO"
  ]

  const No4: string := "N 4"
  const No200: string := "N 200"
  const Pan: string := "FONDO"

  /** Where the two reference sieves and the pan sit, and that no label repeats. */
  lemma StandardLayout()
    ensures |Standard| == 21
    ensures Standard[9] == No4 && Standard[19] == No200 && Standard[20] == Pan
    ensures forall i, j :: 0 <= i < j < |Standard| ==> Standard[i] != Standard[j]
  {
  }

}
