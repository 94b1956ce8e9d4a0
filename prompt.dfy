/** The prompt f-string of `analyze()` (app.py:237-259): a fixed instruction template with the
    severity criteria and then the raw dataset text inserted verbatim. */
module Prompt {

  /** The template up to the severity criteria. */
  const Preamble: string :=
    "You are a cybersecurity expert analyzing vulnerability data. Please analyze the following AttackIQ assessment data using the provided severity classification criteria.\n"
    + "\n"
    + "SEVERITY CLASSIFICATION CRITERIA:\n"

  /** The template between the severity criteria and the dataset. */
  const DataHeading: string :=
    "\n"
    + "\n"
    + "ATTACKIQ ASSESSMENT DATA:\n"

  /** The template after the dataset: the output the model is asked for. */
  const Instructions: string :=
    "\n"
    + "\n"
    + "Please provide:\n"
    + "1. A comprehensive markdown analysis report\n"
    + "2. For each ticket in the JSON data, add a \"severity_analysis\" object with:\n"
    + "   - initial_severity: Based on the raw data\n"
    + "   - adjusted_severity: Your expert assessment\n"
    + "   - risk_factors: List of factors that increase risk\n"
    + "   - mitigating_factors: List of factors that reduce risk\n"
    + "   - confidence_score: Your confidence in the assessment (0-100)\n"
    + "   - reasoning: Brief explanation of your assessment\n"
    + "\n"
    + "Return your response in the following format:\n"
    + "1. First, provide the markdown analysis report\n"
    + "2. Then, provide the enhanced JSON with severity_analysis added to each ticket\n"
    + "\n"
    + "Separate the markdown and JSON sections clearly."

  /** Where the dataset text starts in a prompt built around `severity`. */
  function DatasetStart(severity: string): nat {
    |Preamble| + |severity| + |DataHeading|
  }

  /** The prompt: each piece of the template in place, the severity criteria verbatim right after
      the preamble and the dataset text verbatim right after the data heading. */
  function BuildPrompt(severity: string, dataset: string): (p: string)
    ensures |p| == DatasetStart(severity) + |dataset| + |Instructions|
    ensures p[..|Preamble|] == Preamble
    ensures p[|Preamble|..|Preamble| + |severity|] == severity
    ensures p[|Preamble| + |severity|..DatasetStart(severity)] == DataHeading
    ensures p[DatasetStart(severity)..DatasetStart(severity) + |dataset|] == dataset
    ensures p[DatasetStart(severity) + |dataset|..] == Instructions
  {
    Concat5(Preamble, severity, DataHeading, dataset, Instructions)
  }

  /** Five pieces laid end to end, each at its place. */
  function Concat5(a: string, b: string, c: string, d: string, e: string): (p: string)
    ensures |p| == |a| + |b| + |c| + |d| + |e|
    ensures p[..|a|] == a && p[|a|..|a| + |b|] == b && p[|a| + |b|..|a| + |b| + |c|] == c
    ensures p[|a| + |b| + |c|..|a| + |b| + |c| + |d|] == d && p[|a| + |b| + |c| + |d|..] == e
  {
    a + b + c + d + e
  }

  /** Nothing of the inputs is lost or altered: given the length of the criteria, the prompt
      determines both inputs. */
  lemma BuildPromptInjective(severity1: string, dataset1: string, severity2: string, dataset2: string)
    requires |severity1| == |severity2|
    requires BuildPrompt(severity1, dataset1) == BuildPrompt(severity2, dataset2)
    ensures severity1 == severity2 && dataset1 == dataset2
  {
  }
}
