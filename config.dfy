/** Fixed configuration of the mock-exam session (neetMockTest/script.js, lines 10-11). */
module Config {
  /** Number of questions in the paper; every per-question array has this length. */
  const TOTAL_QUESTIONS: nat := 180

  /** Countdown budget: three hours, in seconds. */
  const TEST_DURATION_SECONDS: nat := 3 * 60 * 60

  /** Marks for a correct answer and penalty for a wrong one. */
  const MARKS_CORRECT: nat := 4
  const PENALTY_WRONG: nat := 1

  /** Maximum score shown on the result screen ("/ 720"). */
  const MAX_SCORE: nat := MARKS_CORRECT * TOTAL_QUESTIONS
}
