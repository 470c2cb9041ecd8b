/** The declared joint dependence of uncertain quantities. */
module Dependences {
  datatype Dependence = Independent | Positive | Negative | Unknown
}
