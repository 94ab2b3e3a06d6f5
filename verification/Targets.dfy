/** What a relocation refers to (input_sections.rs): a symbol, or a subsection. */
module Targets {
  datatype Target = Sym(i: nat) | Section(i: nat)
}
