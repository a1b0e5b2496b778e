/** `BoolExtension`: total conversions of a `bool`. */
module BoolExtension {

  function Toggle(value: bool): (r: bool)
    ensures r != value
  {
    !value
  }

  function ToSign(value: bool): (r: int)
    ensures r == 1 || r == -1
    ensures r > 0 <==> value
  {
    if value then 1 else -1
  }

  function ToInt(value: bool): (r: int)
    ensures r == 0 || r == 1
    ensures r == 1 <==> value
  {
    if value then 1 else 0
  }

  lemma ToggleTwice(value: bool)
    ensures Toggle(Toggle(value)) == value
  {
  }

  /** The signed and the plain integer forms are related by `2x - 1`. */
  lemma SignFromInt(value: bool)
    ensures ToSign(value) == 2 * ToInt(value) - 1
    ensures ToSign(Toggle(value)) == -ToSign(value)
  {
  }
}
