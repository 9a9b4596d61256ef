/**
 One turn of scheduler() in Offline 3/xv6/proc.c: the lottery of Lottery with the random numbers of Twister.
 */
module Scheduler {
  import opened ProcTree
  import opened Lottery
  import opened Twister

  /** The process to run next. The k-th draw since srand is decided by the seed and the tickets; it picks a process
      whenever one is runnable, also for the word whose absolute value is negative, which picks the first. */
  method PickNext(g: Generator, ps: seq<Proc>) returns (draw: int, winner: int)
    requires g.Valid() && Fair(ps) && Before(ps, |ps|) + 1 < 0x8000_0000
    modifies g, g.MT, g.tempered
    ensures g.Valid() && g.seed == old(g.seed) && g.Consumed() == old(g.Consumed()) + 1
    ensures Before(ps, |ps|) >= 0
    ensures draw == CMod(AbsInt(Temper(Element(g.seed, SIZE + old(g.Consumed())))), Before(ps, |ps|) + 1)
    ensures (AbsInt(Temper(Element(g.seed, SIZE + old(g.Consumed())))) - draw) % (Before(ps, |ps|) + 1) == 0 && draw <= Before(ps, |ps|)
    ensures winner == -1 <==> forall k :: 0 <= k < |ps| ==> !ps[k].state.RUNNABLE?
    ensures winner != -1 ==> Wins(ps, draw, winner) && (draw <= 0 ==> First(ps, winner))
    ensures draw < 0 ==> Temper(Element(g.seed, SIZE + old(g.Consumed()))) == 0x80000000
  {
    hide Temper, Element, AbsInt, Wins, First, Before, Fair;
    var total := TotalTickets(ps);
    draw := g.RandUpTo(total + 1);
    winner := FindWinner(ps, draw);
    if winner != -1 && draw <= 0 {
      LowDraw(ps, draw, winner);
    }
  }
}
