TestResult.DisplayName,TestResult.Outcome,TestResult.Duration,TestResult.ResourceCount,RandomSeed
ContainerProperties.ResolveAllStep (correctness),Passed,00:00:01.0830235,1974891,3
ContainerProperties.ResolveAllStep (well-formedness),Passed,00:00:00.2692774,222260,3
