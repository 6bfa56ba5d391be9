/** How an HTML form reports a `<select>` field: the browser submits the value of the
    selected option, and a default value that names no option leaves the first option
    selected. */
module Forms {

  /** The value a `<select>` with these option values and this `defaultValue` submits
      when the user does not touch it. */
  function SelectedOption(options: seq<string>, preferred: string): (r: string)
    requires |options| > 0
    ensures r in options
    ensures preferred in options ==> r == preferred
    ensures preferred !in options ==> r == options[0]
  {
    if preferred in options then preferred else options[0]
  }
}
