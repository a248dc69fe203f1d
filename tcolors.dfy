/** `TColors`: the terminal colour codes and the colour chosen for a status string. */
module TColors {
  import opened PyStrings

  const Esc: char := 27 as char

  const Blue: string := [Esc] + "[94m"
  const Green: string := [Esc] + "[92m"
  const Red: string := [Esc] + "[91m"
  const Endc: string := [Esc] + "[0m"

  /** `TColors.color`: the first matching status prefix decides the colour. */
  function Color(state: string): string {
    if StartsWith(state, "STATUS_ERROR") then Red
    else if StartsWith(state, "STATUS_SUBMITTED") then Blue
    else if StartsWith(state, "STATUS_DONE") then Green
    else Endc
  }

  /** No status string starts with two of the three prefixes, so the order of the
      tests does not matter: each colour belongs to exactly one prefix. */
  lemma ColorByPrefix(state: string)
    ensures Color(state) == Red <==> StartsWith(state, "STATUS_ERROR")
    ensures Color(state) == Blue <==> StartsWith(state, "STATUS_SUBMITTED")
    ensures Color(state) == Green <==> StartsWith(state, "STATUS_DONE")
    ensures Color(state) == Endc <==>
              !StartsWith(state, "STATUS_ERROR") && !StartsWith(state, "STATUS_SUBMITTED")
              && !StartsWith(state, "STATUS_DONE")
  {
    assert Red[3] == '1' && Blue[3] == '4' && Green[3] == '2' && Endc[2] == '0';
    assert Red[2] == '9';
    if StartsWith(state, "STATUS_ERROR") {
      assert state[7] == 'E';
    }
    if StartsWith(state, "STATUS_SUBMITTED") {
      assert state[7] == 'S';
    }
    if StartsWith(state, "STATUS_DONE") {
      assert state[7] == 'D';
    }
  }
}
