TestResult.DisplayName,TestResult.Outcome,TestResult.Duration,TestResult.ResourceCount,RandomSeed
ContainerProperties.ResolveAllStep (correctness),Passed,00:00:00.6541899,969504,1
ContainerProperties.ResolveAllStep (well-formedness),Passed,00:00:00.4736454,221874,1
