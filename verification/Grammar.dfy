/**
 Context-free grammars as LEMON sees them once the grammar file has been read:
 symbols are indices, terminals come first, symbol 0 is the end-of-input mark `$`.
 */
module Grammars {
  import opened Wrappers

  datatype Assoc = LEFT | RIGHT | NONE | UNK

  datatype Symbol = Symbol(prec: int, assoc: Assoc)

  datatype Rule = Rule(lhs: nat, rhs: seq<nat>, precsym: Option<nat>)

  datatype Grammar = Grammar(symbols: seq<Symbol>, nterminal: nat, rules: seq<Rule>, start: nat) {
    function NSymbol(): nat { |symbols| }

    predicate IsTerminal(x: nat) { x < nterminal }

    /** What reading a grammar file guarantees: left-hand sides are nonterminals, `$`
        is on no right-hand side, and a symbol with a precedence has an associativity. */
    ghost predicate Valid() {
      && 0 < nterminal <= NSymbol()
      && nterminal <= start < NSymbol()
      && (forall r :: 0 <= r < |rules| ==> ValidRule(rules[r]))
      && (forall x :: 0 <= x < |symbols| && symbols[x].prec >= 0 ==> symbols[x].assoc != UNK)
    }

    ghost predicate ValidRule(r: Rule) {
      && nterminal <= r.lhs < NSymbol()
      && (forall i :: 0 <= i < |r.rhs| ==> 0 < r.rhs[i] < NSymbol())
      && (r.precsym.Some? ==> r.precsym.value < NSymbol())
    }

    /** The check that FindStates makes before it builds the automaton. */
    ghost predicate StartOnNoRhs() {
      forall r, i :: 0 <= r < |rules| && 0 <= i < |rules[r].rhs| ==> rules[r].rhs[i] != start
    }
  }
}
